/**
 Pulling: listed bundles are copied into the core, merged by key, filtered by validation, and
 what is left is saved into the device's storage.
 */
module Pull {
  import opened Primitives
  import opened Model
  import opened Stores
  import opened Validation
  import opened Client
  import opened Delivery
  import Blocks

  // ----- merging what several servers list -----

  function OrElse<T>(left: Option<T>, right: Option<T>): Option<T> {
    if left.Some? then left else right
  }

  /** Two bundles of one key: the left one wins field by field. */
  function MergeBundle(left: EventBundle, right: EventBundle): EventBundle {
    EventBundle(OrElse(left.signedEvent, right.signedEvent), OrElse(left.serializedContent, right.serializedContent),
                if left.eventProofs != [] then left.eventProofs else right.eventProofs)
  }

  /** The position of the first bundle with the key. */
  function PositionOf(env: Env, merged: seq<EventBundle>, key: EventKey): (r: Option<nat>)
    ensures r.Some? ==> r.value < |merged| && Blocks.DedupKey(env, merged[r.value]) == Some(key)
    ensures r.None? ==> forall b | b in merged :: Blocks.DedupKey(env, b) != Some(key)
  {
    if merged == [] then None
    else if Blocks.DedupKey(env, merged[0]) == Some(key) then Some(0)
    else
      match PositionOf(env, merged[1..], key)
      case Some(i) => Some(i + 1)
      case None => None
  }

  /** Add a bundle: merge it into the one with its key, or append it. */
  function MergeInto(env: Env, merged: seq<EventBundle>, b: EventBundle): seq<EventBundle> {
    match Blocks.DedupKey(env, b)
    case None => merged + [b]
    case Some(key) =>
      match PositionOf(env, merged, key)
      case None => merged + [b]
      case Some(i) => merged[i := MergeBundle(merged[i], b)]
  }

  function MergeAll(env: Env, bundles: seq<EventBundle>): seq<EventBundle> {
    if bundles == [] then [] else MergeInto(env, MergeAll(env, bundles[..|bundles| - 1]), bundles[|bundles| - 1])
  }

  ghost predicate KeysDistinct(env: Env, merged: seq<EventBundle>) {
    forall i, j | 0 <= i < j < |merged| && Blocks.DedupKey(env, merged[i]).Some? ::
      Blocks.DedupKey(env, merged[i]) != Blocks.DedupKey(env, merged[j])
  }

  lemma {:induction false} MergeIntoKeepsDistinct(env: Env, merged: seq<EventBundle>, b: EventBundle)
    requires KeysDistinct(env, merged)
    ensures KeysDistinct(env, MergeInto(env, merged, b))
  {
    var key := Blocks.DedupKey(env, b);
    if key.Some? && PositionOf(env, merged, key.value).Some? {
      var i := PositionOf(env, merged, key.value).value;
      assert Blocks.DedupKey(env, MergeBundle(merged[i], b)) == Blocks.DedupKey(env, merged[i]);
    }
  }

  /** Merging leaves one bundle for each key. */
  lemma {:induction false} MergedKeysDistinct(env: Env, bundles: seq<EventBundle>)
    ensures KeysDistinct(env, MergeAll(env, bundles))
  {
    if bundles != [] {
      MergedKeysDistinct(env, bundles[..|bundles| - 1]);
      MergeIntoKeepsDistinct(env, MergeAll(env, bundles[..|bundles| - 1]), bundles[|bundles| - 1]);
    }
  }

  /** The first content among the bundles of a key. */
  function FirstContent(env: Env, bundles: seq<EventBundle>, key: EventKey): Option<Bytes> {
    if bundles == [] then None
    else if Blocks.DedupKey(env, bundles[0]) == Some(key) && bundles[0].serializedContent.Some?
    then bundles[0].serializedContent
    else FirstContent(env, bundles[1..], key)
  }

  /** The first non-empty proofs among the bundles of a key. */
  function FirstProofs(env: Env, bundles: seq<EventBundle>, key: EventKey): seq<EventProof> {
    if bundles == [] then []
    else if Blocks.DedupKey(env, bundles[0]) == Some(key) && bundles[0].eventProofs != []
    then bundles[0].eventProofs
    else FirstProofs(env, bundles[1..], key)
  }

  /** The first event among the bundles of a key. */
  function FirstEvent(env: Env, bundles: seq<EventBundle>, key: EventKey): Option<SignedEvent> {
    if bundles == [] then None
    else if Blocks.DedupKey(env, bundles[0]) == Some(key) then bundles[0].signedEvent
    else FirstEvent(env, bundles[1..], key)
  }

  lemma {:induction false} FirstsAppend(env: Env, bundles: seq<EventBundle>, b: EventBundle, key: EventKey)
    ensures var more, mine := bundles + [b], Blocks.DedupKey(env, b) == Some(key);
            && FirstContent(env, more, key)
               == (if FirstContent(env, bundles, key).None? && mine then b.serializedContent
                   else FirstContent(env, bundles, key))
            && FirstProofs(env, more, key)
               == (if FirstProofs(env, bundles, key) == [] && mine then b.eventProofs
                   else FirstProofs(env, bundles, key))
            && FirstEvent(env, more, key)
               == (if FirstEvent(env, bundles, key).None? && mine then b.signedEvent
                   else FirstEvent(env, bundles, key))
  {
    if bundles == [] {
      assert [b][1..] == [];
    } else {
      assert (bundles + [b])[1..] == bundles[1..] + [b];
      FirstsAppend(env, bundles[1..], b, key);
    }
  }

  ghost predicate HoldsFirsts(env: Env, merged: seq<EventBundle>, bundles: seq<EventBundle>, key: EventKey) {
    match PositionOf(env, merged, key)
    case None => FirstEvent(env, bundles, key).None?
    case Some(i) => merged[i] == EventBundle(FirstEvent(env, bundles, key), FirstContent(env, bundles, key),
                                             FirstProofs(env, bundles, key))
  }

  /** The merged bundle of a key holds the first event, the first content and the first non-empty proofs that any
      bundle of the key brings; there is one if and only if some bundle has the key. */
  lemma {:induction false} MergedFieldsAreFirst(env: Env, bundles: seq<EventBundle>, key: EventKey)
    ensures HoldsFirsts(env, MergeAll(env, bundles), bundles, key)
  {
    if bundles != [] {
      var front, b := bundles[..|bundles| - 1], bundles[|bundles| - 1];
      assert bundles == front + [b];
      MergedFieldsAreFirst(env, front, key);
      FirstsAppend(env, front, b, key);
      FirstsHaveKey(env, front, key);
      MergeStep(env, MergeAll(env, front), b, key);
    }
  }

  /** Without a bundle of the key there is nothing to be first. */
  lemma {:induction false} FirstsHaveKey(env: Env, bundles: seq<EventBundle>, key: EventKey)
    ensures FirstEvent(env, bundles, key).None? ==>
              FirstContent(env, bundles, key).None? && FirstProofs(env, bundles, key) == []
    ensures FirstEvent(env, bundles, key).Some? ==> KeyOfSigned(env, FirstEvent(env, bundles, key).value) == Some(key)
  {
    if bundles != [] {
      FirstsHaveKey(env, bundles[1..], key);
    }
  }

  lemma {:induction false} MergeStep(env: Env, merged: seq<EventBundle>, b: EventBundle, key: EventKey)
    ensures var after := MergeInto(env, merged, b);
            match PositionOf(env, merged, key)
            case Some(i) =>
              PositionOf(env, after, key) == Some(i)
              && after[i] == if Blocks.DedupKey(env, b) == Some(key) then MergeBundle(merged[i], b) else merged[i]
            case None =>
              if Blocks.DedupKey(env, b) == Some(key)
              then PositionOf(env, after, key) == Some(|merged|) && after[|merged|] == b
              else PositionOf(env, after, key) == None
  {
    var own := Blocks.DedupKey(env, b);
    if own.None? || PositionOf(env, merged, own.value).None? {
      PositionAppend(env, merged, b, key);
    } else {
      var i := PositionOf(env, merged, own.value).value;
      PositionUpdate(env, merged, i, MergeBundle(merged[i], b), key);
    }
  }

  lemma {:induction false} PositionAppend(env: Env, merged: seq<EventBundle>, b: EventBundle, key: EventKey)
    ensures PositionOf(env, merged + [b], key)
         == match PositionOf(env, merged, key)
            case Some(i) => Some(i)
            case None => if Blocks.DedupKey(env, b) == Some(key) then Some(|merged|) else None
  {
    if merged != [] {
      assert (merged + [b])[1..] == merged[1..] + [b];
      PositionAppend(env, merged[1..], b, key);
    }
  }

  lemma {:induction false} PositionUpdate(env: Env, merged: seq<EventBundle>, i: nat, b: EventBundle, key: EventKey)
    requires i < |merged| && Blocks.DedupKey(env, b) == Blocks.DedupKey(env, merged[i])
    ensures PositionOf(env, merged[i := b], key) == PositionOf(env, merged, key)
  {
    if i > 0 {
      assert merged[i := b][1..] == merged[1..][i - 1 := b];
      PositionUpdate(env, merged[1..], i - 1, b, key);
    } else {
      assert merged[i := b][1..] == merged[1..];
    }
  }

  ghost predicate Indexes(env: Env, merged: seq<EventBundle>, index: map<EventKey, nat>) {
    && (forall k | k in index :: index[k] < |merged| && Blocks.DedupKey(env, merged[index[k]]) == Some(k))
    && (forall i | 0 <= i < |merged| && Blocks.DedupKey(env, merged[i]).Some? ::
          Blocks.DedupKey(env, merged[i]).value in index && index[Blocks.DedupKey(env, merged[i]).value] == i)
  }

  lemma {:induction false} IndexFinds(env: Env, merged: seq<EventBundle>, index: map<EventKey, nat>, key: EventKey)
    requires Indexes(env, merged, index)
    ensures PositionOf(env, merged, key) == if key in index then Some(index[key]) else None
  {
    if key in index {
      assert merged[index[key]] in merged;
    }
  }

  /** The loop over all listed bundles, with the position of every key seen so far. */
  method MergeEventBundles(env: Env, original: seq<EventBundle>) returns (merged: seq<EventBundle>)
    ensures merged == MergeAll(env, original)
  {
    merged := [];
    var index: map<EventKey, nat> := map[];
    for n := 0 to |original|
      invariant merged == MergeAll(env, original[..n])
      invariant Indexes(env, merged, index)
    {
      assert original[..n + 1][..n] == original[..n];
      var b := original[n];
      var key := Blocks.DedupKey(env, b);
      if key.None? {
        merged := merged + [b];
      } else {
        IndexFinds(env, merged, index, key.value);
        if key.value in index {
          var i := index[key.value];
          assert Blocks.DedupKey(env, MergeBundle(merged[i], b)) == Some(key.value);
          merged := merged[i := MergeBundle(merged[i], b)];
        } else {
          index := index[key.value := |merged|];
          merged := merged + [b];
        }
      }
    }
    assert original[..|original|] == original;
  }

  // ----- the storage -----

  /** The entry a bundle carries, if it is complete enough to be saved. */
  function Saveable(env: Env, bundle: EventBundle): Option<Entry> {
    match bundle.signedEvent
    case None => None
    case Some(signed) =>
      match KeyOfSigned(env, signed)
      case None => None
      case Some(key) => if signed.signature == [] || signed.eventBytes == [] then None else Some(Entry(key, signed))
  }

  /** What the storage holds: signed events by key, and decoded contents by digest. */
  datatype Disk = Disk(events: map<EventKey, SignedEvent>, contents: map<ContentDigest, Content>)

  /** Content is saved under a free digest if it decodes. It is not compared with the digest. */
  function SaveContent(env: Env, disk: Disk, event: Event, bundle: EventBundle): Disk {
    match (bundle.serializedContent, event.contentDigest)
    case (Some(bytes), Some(digest)) =>
      if env.decodeContent(bytes).None? || digest in disk.contents then disk
      else disk.(contents := disk.contents[digest := env.decodeContent(bytes).value])
    case _ => disk
  }

  function SaveEvent(env: Env, disk: Disk, bundle: EventBundle): Disk {
    match Saveable(env, bundle)
    case None => disk
    case Some(e) => if e.key in disk.events then disk else disk.(events := disk.events[e.key := e.event])
  }

  /** The content of any event with a signer is saved first, then the event. */
  function SaveBundle(env: Env, disk: Disk, bundle: EventBundle): Disk {
    if bundle.signedEvent.None? || KeyOfSigned(env, bundle.signedEvent.value).None? then disk
    else
      SaveEvent(env, SaveContent(env, disk, env.decodeEvent(bundle.signedEvent.value.eventBytes).value, bundle), bundle)
  }

  /** A signed event on its own. */
  function SignedBundle(signed: SignedEvent): EventBundle {
    EventBundle(Some(signed), None, [])
  }

  /** A committed event replaces what was saved under its key. */
  function Overwritten(env: Env, disk: Disk, signed: SignedEvent): Disk {
    match Saveable(env, SignedBundle(signed))
    case None => disk
    case Some(e) => disk.(events := disk.events[e.key := e.event])
  }

  function SaveAll(env: Env, disk: Disk, bundles: seq<EventBundle>): Disk {
    if bundles == [] then disk
    else SaveBundle(env, SaveAll(env, disk, bundles[..|bundles| - 1]), bundles[|bundles| - 1])
  }

  /** The first saveable event listed under a key. */
  function FirstFor(env: Env, bundles: seq<EventBundle>, key: EventKey): Option<SignedEvent> {
    if bundles == [] then None
    else
      var earlier := FirstFor(env, bundles[..|bundles| - 1], key);
      if earlier.Some? then earlier
      else match Saveable(env, bundles[|bundles| - 1])
        case Some(e) => if e.key == key then Some(e.event) else None
        case None => None
  }

  /** Nothing stored is overwritten, and a free key gets the first event listed under it. */
  lemma {:induction false} FirstIsKept(env: Env, disk: Disk, bundles: seq<EventBundle>, key: EventKey)
    ensures key in SaveAll(env, disk, bundles).events <==> key in disk.events || FirstFor(env, bundles, key).Some?
    ensures key in SaveAll(env, disk, bundles).events ==>
              SaveAll(env, disk, bundles).events[key]
              == if key in disk.events then disk.events[key] else FirstFor(env, bundles, key).value
  {
    if bundles != [] {
      FirstIsKept(env, disk, bundles[..|bundles| - 1], key);
    }
  }

  /** A bundle is saved under the key that its event bytes decode to, if they name a signer and neither they nor the
      signature are empty. */
  lemma {:induction false} SaveableMeaning(env: Env, b: EventBundle, x: Entry)
    ensures Saveable(env, b) == Some(x)
       <==> b.signedEvent == Some(x.event) && x.event.signature != [] && x.event.eventBytes != []
            && match env.decodeEvent(x.event.eventBytes)
               case None => false
               case Some(event) => event.key == Some(WireKey(x.key.collection, x.key.identity, Some(x.key.signer),
                                                             x.key.sequence))
  {
  }

  /** The bundle has an event with a signer that states the digest, and content bytes that decode to the content. */
  ghost predicate BringsContent(env: Env, b: EventBundle, digest: ContentDigest, content: Content) {
    && b.signedEvent.Some? && b.serializedContent.Some?
    && env.decodeContent(b.serializedContent.value) == Some(content)
    && match env.decodeEvent(b.signedEvent.value.eventBytes)
       case None => false
       case Some(event) =>
         event.key.Some? && event.key.value.signedBy.Some? && event.contentDigest == Some(digest)
  }

  /** No bundle before place `n` has content for the digest. */
  ghost predicate NoneBringsContent(env: Env, bundles: seq<EventBundle>, digest: ContentDigest, n: nat)
    requires n <= |bundles|
  {
    forall j, c | 0 <= j < n :: !BringsContent(env, bundles[j], digest, c)
  }

  lemma {:induction false} SavedByOne(env: Env, disk: Disk, b: EventBundle, digest: ContentDigest)
    ensures digest in disk.contents ==>
              digest in SaveBundle(env, disk, b).contents
              && SaveBundle(env, disk, b).contents[digest] == disk.contents[digest]
    ensures digest !in disk.contents && digest in SaveBundle(env, disk, b).contents ==>
              BringsContent(env, b, digest, SaveBundle(env, disk, b).contents[digest])
    ensures digest !in SaveBundle(env, disk, b).contents ==> forall c :: !BringsContent(env, b, digest, c)
  {
  }

  /** The storage keeps its content. A free digest gets the first content that a bundle brings for it, at place `i`, and
      stays free if none does. */
  lemma {:induction false} ContentIsFirst(env: Env, disk: Disk, bundles: seq<EventBundle>, digest: ContentDigest)
    returns (i: nat)
    ensures var after := SaveAll(env, disk, bundles).contents;
            if digest in disk.contents then digest in after && after[digest] == disk.contents[digest]
            else if digest in after then
              i < |bundles| && BringsContent(env, bundles[i], digest, after[digest])
              && NoneBringsContent(env, bundles, digest, i)
            else NoneBringsContent(env, bundles, digest, |bundles|)
  {
    i := 0;
    if bundles != [] {
      var n := |bundles| - 1;
      i := ContentIsFirst(env, disk, bundles[..n], digest);
      var before := SaveAll(env, disk, bundles[..n]);
      SavedByOne(env, before, bundles[n], digest);
      if digest !in before.contents {
        i := n;
      }
    }
  }

  /** Saved content is never replaced. */
  lemma {:induction false} ContentStays(env: Env, disk: Disk, bundles: seq<EventBundle>, digest: ContentDigest)
    requires digest in disk.contents
    ensures digest in SaveAll(env, disk, bundles).contents
    ensures SaveAll(env, disk, bundles).contents[digest] == disk.contents[digest]
  {
    if bundles != [] {
      ContentStays(env, disk, bundles[..|bundles| - 1], digest);
    }
  }

  /** Content that decodes but does not hash to its digest takes the digest in the storage, and no later pull replaces
      it. The core rejects the same content. */
  lemma {:induction false} UncheckedContentStays(env: Env, disk: Disk, s: Stores, bundle: EventBundle,
                                                 later: seq<EventBundle>,
                                                 event: Event, digest: ContentDigest, bytes: Bytes)
    requires bundle.signedEvent.Some? && KeyOfSigned(env, bundle.signedEvent.value).Some?
    requires env.decodeEvent(bundle.signedEvent.value.eventBytes) == Some(event) && event.contentDigest == Some(digest)
    requires bundle.serializedContent == Some(bytes) && env.decodeContent(bytes).Some?
    requires digest !in disk.contents && !env.DigestMatches(digest, bytes)
    ensures digest in SaveAll(env, SaveBundle(env, disk, bundle), later).contents
    ensures SaveAll(env, SaveBundle(env, disk, bundle), later).contents[digest] == env.decodeContent(bytes).value
    ensures PutContent(env, s, digest, bytes) == s
  {
    ContentStays(env, SaveBundle(env, disk, bundle), later, digest);
  }

  class Storage {
    const env: Env
    var events: map<EventKey, SignedEvent>
    var contents: map<ContentDigest, Content>

    ghost function Value(): Disk
      reads this
    {
      Disk(events, contents)
    }

    constructor (env: Env)
      ensures this.env == env && Value() == Disk(map[], map[])
    {
      this.env, events, contents := env, map[], map[];
    }

    method TrySaveContent(event: Event, bundle: EventBundle) returns (isNew: bool)
      modifies this`contents
      ensures Value() == SaveContent(env, old(Value()), event, bundle)
      ensures isNew <==> contents != old(contents)
    {
      if bundle.serializedContent.None? || env.decodeContent(bundle.serializedContent.value).None?
         || event.contentDigest.None?
      {
        return false;
      }
      var digest := event.contentDigest.value;
      if digest in contents {
        return false;
      }
      contents := contents[digest := env.decodeContent(bundle.serializedContent.value).value];
      assert digest in contents.Keys && digest !in old(contents).Keys;
      isNew := true;
    }

    method TrySaveBundle(bundle: EventBundle) returns (isNew: bool)
      modifies this
      ensures Value() == SaveBundle(env, old(Value()), bundle)
      ensures isNew <==> Saveable(env, bundle).Some? && Saveable(env, bundle).value.key !in old(events)
    {
      if bundle.signedEvent.None? {
        return false;
      }
      var signed := bundle.signedEvent.value;
      var event := env.decodeEvent(signed.eventBytes);
      if event.None? || event.value.key.None? || event.value.key.value.signedBy.None? {
        return false;
      }
      var _ := TrySaveContent(event.value, bundle);
      var key := ToEventKey(event.value.key.value).value;
      if key in events {
        return false;
      }
      if signed.signature == [] || signed.eventBytes == [] {
        return false;
      }
      events := events[key := signed];
      isNew := true;
    }

    /** Save the device's own event; unlike a pulled one, it replaces an event of the same key. */
    method Commit(signed: SignedEvent) returns (ok: bool)
      modifies this`events
      ensures Value() == Overwritten(env, old(Value()), signed)
      ensures ok <==> Saveable(env, SignedBundle(signed)).Some?
    {
      var key := KeyOfSigned(env, signed);
      if signed.signature == [] || signed.eventBytes == [] || key.None? {
        return false;
      }
      events := events[key.value := signed];
      ok := true;
    }

    /** Save bundle after bundle; the count returned is the growth of the store. */
    method Save(bundles: seq<EventBundle>) returns (newCount: nat)
      modifies this
      ensures Value() == SaveAll(env, old(Value()), bundles)
      ensures newCount == |events| - |old(events)|
    {
      newCount := 0;
      for i := 0 to |bundles|
        invariant Value() == SaveAll(env, old(Value()), bundles[..i])
        invariant newCount == |events| - |old(events)|
      {
        assert bundles[..i + 1][..i] == bundles[..i];
        ghost var before := events;
        var isNew := TrySaveBundle(bundles[i]);
        if isNew {
          assert |events| == |before| + 1;
          newCount := newCount + 1;
        }
      }
      assert bundles[..|bundles|] == bundles;
    }
  }

  // ----- a whole pull -----

  /** What one server answers. */
  datatype Listing = Listing(hints: seq<EventBundle>, bundles: seq<EventBundle>)

  /** The batches copied into the core: for each answer its hints, then its bundles. */
  function Copied(listings: seq<Listing>): seq<seq<EventBundle>> {
    if listings == [] then []
    else
      var last := listings[|listings| - 1];
      Copied(listings[..|listings| - 1]) + [last.hints, last.bundles]
  }

  function Concatenated(listings: seq<Listing>): seq<EventBundle> {
    if listings == [] then [] else Concatenated(listings[..|listings| - 1]) + listings[|listings| - 1].bundles
  }

  /** Whether a bundle passes validation with the proofs it carries. */
  function Admitted(env: Env, s: Stores): EventBundle -> bool {
    (b: EventBundle) => b.signedEvent.Some? && ValidEvent(env, s, b.signedEvent.value, b.eventProofs)
  }

  /** The bundles that a pull merges are those of the answers without their hints; the batches that it copies are the
      hints and the bundles of each. */
  lemma {:induction false} ListedMembers(listings: seq<Listing>, b: EventBundle, batch: seq<EventBundle>)
    ensures b in Concatenated(listings) <==> exists l :: l in listings && b in l.bundles
    ensures batch in Copied(listings) <==> exists l :: l in listings && (batch == l.hints || batch == l.bundles)
  {
    if listings != [] {
      var front, last := listings[..|listings| - 1], listings[|listings| - 1];
      assert forall l :: l in listings <==> l in front || l == last by { assert listings == front + [last]; }
      ListedMembers(front, b, batch);
    }
  }

  /** What a pull saves of the listed bundles, given the core's stores after copying. */
  function Retained(env: Env, s: Stores, listings: seq<Listing>): seq<EventBundle> {
    Filter(Admitted(env, s), MergeAll(env, Concatenated(listings)))
  }

  lemma {:induction false} BatchesAppend(env: Env, s: Stores, batches: seq<seq<EventBundle>>, batch: seq<EventBundle>)
    ensures PutBatches(env, s, batches + [batch]) == PutBatch(env, PutBatches(env, s, batches), batch)
    decreases |batches|
  {
    if batches == [] {
      assert batches + [batch] == [batch];
      assert [batch][1..] == [];
    } else {
      assert (batches + [batch])[1..] == batches[1..] + [batch];
      BatchesAppend(env, PutBatch(env, s, batches[0]), batches[1..], batch);
    }
  }

  /** Copy each answer into the core as it arrives. */
  method CopyListings(core: PolycentricClient, listings: seq<Listing>)
    requires core.Valid()
    modifies core
    ensures core.Valid() && core.activeIdentity == old(core.activeIdentity)
    ensures core.stores == PutBatches(core.env, old(core.stores), Copied(listings))
  {
    for i := 0 to |listings|
      invariant core.Valid() && core.activeIdentity == old(core.activeIdentity)
      invariant core.stores == PutBatches(core.env, old(core.stores), Copied(listings[..i]))
    {
      ghost var done := Copied(listings[..i]);
      assert listings[..i + 1][..i] == listings[..i];
      assert Copied(listings[..i + 1]) == done + [listings[i].hints] + [listings[i].bundles];
      BatchesAppend(core.env, old(core.stores), done, listings[i].hints);
      BatchesAppend(core.env, old(core.stores), done + [listings[i].hints], listings[i].bundles);
      core.CopyBundles(listings[i].hints);
      core.CopyBundles(listings[i].bundles);
    }
    assert listings[..|listings|] == listings;
  }

  lemma {:induction false} FilterLast<T(!new)>(p: T -> bool, s: seq<T>)
    requires s != []
    ensures Filter(p, s) == Filter(p, s[..|s| - 1]) + (if p(s[|s| - 1]) then [s[|s| - 1]] else [])
  {
    if |s| > 1 {
      assert s[1..][..|s| - 2] == s[..|s| - 1][1..];
      FilterLast(p, s[1..]);
    }
  }

  method RetainValidated(core: PolycentricClient, bundles: seq<EventBundle>) returns (kept: seq<EventBundle>)
    requires core.Valid()
    modifies core`chains
    ensures core.Valid()
    ensures kept == Filter(Admitted(core.env, core.stores), bundles)
  {
    kept := [];
    for i := 0 to |bundles|
      invariant core.Valid()
      invariant kept == Filter(Admitted(core.env, core.stores), bundles[..i])
    {
      assert bundles[..i + 1][..i] == bundles[..i];
      FilterLast(Admitted(core.env, core.stores), bundles[..i + 1]);
      var ok := false;
      if bundles[i].signedEvent.Some? {
        ok := core.ValidateEvent(bundles[i].signedEvent.value, bundles[i].eventProofs);
      }
      if ok {
        kept := kept + [bundles[i]];
      }
    }
    assert bundles[..|bundles|] == bundles;
  }

  /** Pull the answers that arrived: copy all of them into the core, and save those that validate there. `listings` are
      the same answers in the order of their servers. */
  method PullListings(core: PolycentricClient, storage: Storage, arrived: seq<Listing>, listings: seq<Listing>)
    returns (newCount: nat)
    requires core.Valid() && storage.env == core.env && multiset(arrived) == multiset(listings)
    modifies core, storage
    ensures core.Valid() && core.stores == PutBatches(core.env, old(core.stores), Copied(arrived))
    ensures storage.Value() == SaveAll(core.env, old(storage.Value()), Retained(core.env, core.stores, listings))
    ensures newCount == |storage.events| - |old(storage.events)|
  {
    CopyListings(core, arrived);
    var merged := MergeEventBundles(core.env, Concatenated(listings));
    var kept := RetainValidated(core, merged);
    newCount := storage.Save(kept);
  }
}
