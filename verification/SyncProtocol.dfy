/**
 Replication of one identity's events as an asynchronous protocol: owners publish on their
 own device, devices push to servers and pull from them, and every request carries heads
 that may be out of date when it is answered.

 A device holds two sets. The core takes in every event that is listed to it, and the hints
 that come along; the storage, from which the core is rebuilt at a restart, takes in only the
 listed events that pass validation. Everyone keeps the event that came first under a key,
 except the storage of a device that publishes: there the new event takes the key.
 */
module SyncProtocol {
  import opened Primitives
  import opened Model
  import opened Stores
  import opened Sync

  /** What a device or a server holds of the identity. */
  type Replica = set<Entry>

  /** The most events a server lists in one response. */
  const PAGE_LIMIT: nat := 200

  /** The event is later than everything the replica holds of its stream. */
  predicate Above(r: Replica, e: Entry) {
    forall x | x in r :: SameStream(x.key, e.key) ==> x.key.sequence < e.key.sequence
  }

  // ----- one event for each key -----

  ghost predicate OnePerKey(r: Replica) {
    forall x, y | x in r && y in r && x.key == y.key :: x == y
  }

  predicate Occupied(r: Replica, key: EventKey) {
    exists x | x in r :: x.key == key
  }

  /** Add events; one whose key is taken is dropped. */
  function Insert(r: Replica, more: Replica): Replica {
    r + set e | e in more && !Occupied(r, e.key)
  }

  /** Add an event, which replaces any other with its key. */
  function Overwrite(r: Replica, e: Entry): Replica {
    (set x | x in r && x.key != e.key) + {e}
  }

  lemma {:induction false} KeysStayUnique(r: Replica, more: Replica)
    requires OnePerKey(r) && OnePerKey(more)
    ensures OnePerKey(Insert(r, more))
  {
  }

  /** Events above everything held find their keys free. */
  lemma {:induction false} AboveIsFree(r: Replica, more: Replica)
    requires forall e | e in more :: Above(r, e)
    ensures Insert(r, more) == r + more
  {
    forall e | e in more ensures !Occupied(r, e.key) {
      if x :| x in r && x.key == e.key {
        assert SameStream(x.key, e.key);
      }
    }
  }

  // ----- heads on the wire -----

  predicate HeadFor(h: WireKey, collection: int, signer: PublicKey) {
    h.collection == collection && h.signedBy == Some(signer)
  }

  /** The heads are the largest sequences of the replica's streams, one per stream. */
  ghost predicate Reports(identity: Text, heads: seq<WireKey>, r: Replica) {
    && (forall x | x in r :: x.key.identity == identity && HasHead(heads, x.key))
    && (forall h | h in heads :: h.identity == identity && exists x | x in r :: ToEventKey(h) == Some(x.key))
    && (forall g, h | g in heads && h in heads :: g.collection == h.collection && g.signedBy == h.signedBy ==> g == h)
  }

  predicate HasHead(heads: seq<WireKey>, key: EventKey) {
    exists h | h in heads :: HeadFor(h, key.collection, key.signer) && key.sequence <= h.sequence
  }

  lemma {:induction false} HeadOfUnique(heads: seq<WireKey>, collection: int, signer: PublicKey, h: WireKey)
    requires forall g | g in heads && HeadFor(g, collection, signer) :: g == h
    ensures HeadOf(heads, collection, signer) == if h in heads && HeadFor(h, collection, signer) then h.sequence else 0
  {
    if heads != [] {
      var last, front := heads[|heads| - 1], heads[..|heads| - 1];
      assert forall g :: g in heads <==> g in front || g == last by { assert heads == front + [last]; }
      assert HeadFor(last, collection, signer) ==> last == h;
      HeadOfUnique(front, collection, signer, h);
    }
  }

  /** The filter of a server's listing: every head with a signer must let the event through. */
  predicate Passes(heads: seq<WireKey>, key: EventKey) {
    forall h | h in heads && h.identity == key.identity && HeadFor(h, key.collection, key.signer) ::
      key.sequence > h.sequence
  }

  function Offered(from: Replica, heads: Option<Replica>): Replica {
    match heads
    case None => from
    case Some(to) => set e | e in from && e.key.sequence > 0 && Above(to, e)
  }

  function Listed(from: Replica, heads: Replica): Replica {
    set e | e in from && Above(heads, e)
  }

  /** A push against reported heads sends exactly what `Offered` says, and a listing returns what `Listed` says. */
  lemma {:induction false} HeadsDecide(identity: Text, heads: seq<WireKey>, r: Replica, e: Entry)
    requires Reports(identity, heads, r) && e.key.identity == identity
    ensures Unsent(identity, heads, e) <==> e.key.sequence > 0 && Above(r, e)
    ensures Passes(heads, e.key) <==> Above(r, e)
  {
    var c, k := e.key.collection, e.key.signer;
    if h :| h in heads && HeadFor(h, c, k) {
      HeadOfUnique(heads, c, k, h);
      var y :| y in r && ToEventKey(h) == Some(y.key);
      assert SameStream(y.key, e.key) && y.key.sequence == h.sequence;
      forall x | x in r && SameStream(x.key, e.key) ensures x.key.sequence <= h.sequence {
        assert HasHead(heads, x.key);
      }
    } else {
      HeadOfUnique(heads, c, k, WireKey(c, identity, None, 0));
      assert forall x | x in r :: HasHead(heads, x.key);
    }
  }

  /** What a store holds of one identity. */
  function ReplicaOf(events: EventStore, identity: Text): Replica {
    set e | e in events && e.key.identity == identity
  }

  /** The events bundled for a server that reported its heads are the `Offered` ones. */
  lemma {:induction false} BundledIsOffered(identity: Text, events: EventStore, heads: seq<WireKey>, server: Replica,
                                            sent: seq<Entry>)
    requires Reports(identity, heads, server)
    requires forall e :: e in sent <==> e in events && Unsent(identity, heads, e)
    ensures (set e | e in sent) == Offered(ReplicaOf(events, identity), Some(server))
  {
    forall e | e in events && e.key.identity == identity
      ensures Unsent(identity, heads, e) <==> e.key.sequence > 0 && Above(server, e)
    {
      HeadsDecide(identity, heads, server, e);
    }
  }

  // ----- prefixes of what was published -----

  /** The replica holds a prefix of every published stream. */
  ghost predicate IsPrefix(r: Replica, published: Replica) {
    && r <= published
    && forall x, y | x in r && y in published && SameStream(x.key, y.key) && y.key.sequence <= x.key.sequence :: y in r
  }

  /** A prefix has no other event under the key of a published one. */
  lemma {:induction false} PrefixIsFree(r: Replica, more: Replica, published: Replica)
    requires IsPrefix(r, published) && more <= published
    ensures Insert(r, more) == r + more
  {
    forall e | e in more && e !in r ensures !Occupied(r, e.key) {
      if x :| x in r && x.key == e.key {
        assert SameStream(x.key, e.key);
      }
    }
  }

  /** Among `events`, whatever precedes a published event is there too or not above what the receiver had. */
  ghost predicate Completes(had: Replica, events: Replica, published: Replica) {
    && events <= published
    && forall x, y | x in events && y in published && SameStream(x.key, y.key) && y.key.sequence <= x.key.sequence ::
         y in events || !Above(had, y)
  }

  /** What completes a snapshot completes every prefix that contains it. */
  lemma {:induction false} CompletedPrefix(r: Replica, had: Replica, events: Replica, published: Replica)
    requires IsPrefix(r, published) && had <= r && Completes(had, events, published)
    ensures IsPrefix(Insert(r, events), published)
  {
    PrefixIsFree(r, events, published);
    var all := r + events;
    forall x, y | x in all && y in published && SameStream(x.key, y.key) && y.key.sequence <= x.key.sequence
      ensures y in all
    {
      if x !in r && y !in events {
        var z :| z in had && SameStream(z.key, y.key) && z.key.sequence >= y.key.sequence;
        assert z in r;
      }
    }
  }

  lemma {:induction false} PrefixUnion(a: Replica, b: Replica, published: Replica)
    requires IsPrefix(a, published) && IsPrefix(b, published)
    ensures IsPrefix(a + b, published)
  {
  }

  /** Between prefixes, sending what lies above the receiver's heads sends exactly what the receiver lacks. */
  lemma {:induction false} PartialIsFull(from: Replica, to: Replica, published: Replica)
    requires IsPrefix(from, published) && IsPrefix(to, published)
    ensures Listed(from, to) == from - to
    ensures (forall e | e in published :: e.key.sequence > 0) ==> Offered(from, Some(to)) == from - to
  {
    forall e | e in from ensures Above(to, e) <==> e !in to {
      if x :| x in to && SameStream(x.key, e.key) && x.key.sequence >= e.key.sequence {
        assert e in published;
      }
    }
  }

  /** A later event of a stream leaves every prefix a prefix. */
  lemma {:induction false} PrefixPublish(r: Replica, published: Replica, e: Entry)
    requires IsPrefix(r, published) && Above(published, e)
    ensures IsPrefix(r, published + {e})
  {
  }

  lemma {:induction false} OwnPublish(r: Replica, published: Replica, e: Entry)
    requires IsPrefix(r, published) && Above(published, e)
    requires forall x | x in published && SameStream(x.key, e.key) :: x in r
    ensures IsPrefix(r + {e}, published + {e})
  {
  }

  lemma {:induction false} CompletesPublish(had: Replica, events: Replica, published: Replica, e: Entry)
    requires Completes(had, events, published) && Above(published, e)
    ensures Completes(had, events, published + {e})
  {
  }

  // ----- pages -----

  /** The events of highest sequence among the candidates, at most `PAGE_LIMIT` of them; ties go either way. */
  ghost predicate IsPage(candidates: Replica, page: Replica) {
    && page <= candidates
    && |page| == (if |candidates| <= PAGE_LIMIT then |candidates| else PAGE_LIMIT)
    && forall x, y | x in page && y in candidates - page :: y.key.sequence <= x.key.sequence
  }

  lemma {:induction false} SubsetSize<T>(a: set<T>, b: set<T>)
    requires a <= b
    ensures |a| <= |b|
    ensures |a| == |b| ==> a == b
  {
    if a == {} {
    } else {
      var x :| x in a;
      SubsetSize(a - {x}, b - {x});
    }
  }

  /** A page is complete exactly when the candidates fit into it. */
  lemma {:induction false} PageIsComplete(candidates: Replica, page: Replica)
    requires IsPage(candidates, page)
    ensures page == candidates <==> |candidates| <= PAGE_LIMIT
    ensures |page| <= 200 && (|candidates| > 200 ==> |page| == 200)
  {
    SubsetSize(page, candidates);
  }

  /** The candidates that come before `x` in every page. */
  function Higher(candidates: Replica, x: Entry): Replica {
    set z | z in candidates && z.key.sequence > x.key.sequence
  }

  /** The other candidates that can come before `y` in some page. */
  function NotLower(candidates: Replica, y: Entry): Replica {
    set z | z in candidates && z != y && z.key.sequence >= y.key.sequence
  }

  lemma {:induction false} InPage(candidates: Replica, page: Replica, x: Entry)
    requires IsPage(candidates, page) && x in page
    ensures |Higher(candidates, x)| < PAGE_LIMIT
  {
    assert Higher(candidates, x) <= page - {x};
    SubsetSize(Higher(candidates, x), page - {x});
  }

  lemma {:induction false} OutOfPage(candidates: Replica, page: Replica, y: Entry)
    requires IsPage(candidates, page) && y in candidates - page
    ensures |NotLower(candidates, y)| >= PAGE_LIMIT
  {
    PageIsComplete(candidates, page);
    assert page <= NotLower(candidates, y);
    SubsetSize(page, NotLower(candidates, y));
  }

  /** Sequences first; among equals `x` is listed first and `y` last. */
  function Rank(x: Entry, y: Entry, z: Entry): int {
    3 * z.key.sequence + if z == x then 2 else if z == y then 0 else 1
  }

  ghost predicate IsTop(candidates: Replica, x: Entry, y: Entry, top: Replica) {
    && top <= candidates
    && forall a, b | a in top && b in candidates - top :: Rank(x, y, b) <= Rank(x, y, a)
  }

  lemma {:induction false} HighestExists(candidates: Replica, x: Entry, y: Entry) returns (m: Entry)
    requires candidates != {}
    ensures m in candidates && forall z | z in candidates :: Rank(x, y, z) <= Rank(x, y, m)
  {
    m :| m in candidates;
    var rest := candidates - {m};
    if rest != {} {
      var n := HighestExists(rest, x, y);
      m := if Rank(x, y, n) > Rank(x, y, m) then n else m;
    }
  }

  lemma {:induction false} TopExists(candidates: Replica, x: Entry, y: Entry, n: nat) returns (top: Replica)
    requires n <= |candidates|
    ensures IsTop(candidates, x, y, top) && |top| == n
  {
    if n == 0 {
      top := {};
    } else {
      var m := HighestExists(candidates, x, y);
      var rest := TopExists(candidates - {m}, x, y, n - 1);
      top := rest + {m};
    }
  }

  /** Some page lists `x`, and does so without `y` if enough other candidates can come before `y`. */
  lemma {:induction false} PageWith(candidates: Replica, x: Entry, y: Entry) returns (page: Replica)
    requires x in candidates && y in candidates && x != y && |Higher(candidates, x)| < PAGE_LIMIT
    ensures IsPage(candidates, page) && x in page
    ensures |NotLower(candidates, y)| >= PAGE_LIMIT ==> y !in page
  {
    var n := if |candidates| <= PAGE_LIMIT then |candidates| else PAGE_LIMIT;
    page := TopExists(candidates, x, y, n);
    if x !in page {
      forall z | z in page ensures z in Higher(candidates, x) {
        assert Rank(x, y, x) <= Rank(x, y, z);
      }
      SubsetSize(page, Higher(candidates, x));
      SubsetSize(Higher(candidates, x), candidates - {x});
    }
    if y in page && |NotLower(candidates, y)| >= PAGE_LIMIT {
      forall z | z in NotLower(candidates, y) ensures z in page - {y} {
        assert Rank(x, y, y) < Rank(x, y, z);
      }
      SubsetSize(NotLower(candidates, y), page - {y});
    }
  }

  /** Some listing brings `x`, as a hint or in its page, without the earlier `y` of its stream. */
  predicate Tears(candidates: Replica, hints: Replica, x: Entry, y: Entry) {
    && x in candidates && y in candidates - hints && SameStream(x.key, y.key)
    && x != y && y.key.sequence <= x.key.sequence
    && (x in hints || |Higher(candidates, x)| < PAGE_LIMIT) && |NotLower(candidates, y)| >= PAGE_LIMIT
  }

  /** Nothing the receiver did not have is torn off. */
  ghost predicate NoTear(candidates: Replica, hints: Replica, had: Replica) {
    forall x, y | Tears(candidates, hints, x, y) :: !Above(had, y)
  }

  lemma {:induction false} NotTorn(candidates: Replica, hints: Replica, had: Replica, page: Replica)
    requires NoTear(candidates, hints, had) && IsPage(candidates, page)
    ensures DownwardIn(Listed(candidates, had), candidates * (page + hints))
  {
    var brought := candidates * (page + hints);
    forall x, y
      | x in brought && y in Listed(candidates, had) && SameStream(x.key, y.key) && y.key.sequence <= x.key.sequence
      ensures y in brought
    {
      if y !in brought {
        if x in page {
          InPage(candidates, page, x);
        }
        OutOfPage(candidates, page, y);
        assert Tears(candidates, hints, x, y);
      }
    }
  }

  lemma {:induction false} PageWithout(candidates: Replica, y: Entry) returns (page: Replica)
    requires y in candidates && |NotLower(candidates, y)| >= PAGE_LIMIT
    ensures IsPage(candidates, page) && y !in page
  {
    var x := HighestExists(NotLower(candidates, y), y, y);
    forall z | z in candidates ensures z !in Higher(candidates, x) {
      if z in NotLower(candidates, y) {
        assert Rank(y, y, z) <= Rank(y, y, x);
      }
    }
    assert Higher(candidates, x) == {};
    page := PageWith(candidates, x, y);
  }

  /** A listing that fits into a page tears nothing, and neither does one of events that the receiver had. */
  lemma {:induction false} ShortListingNeverTears(candidates: Replica, hints: Replica, had: Replica)
    requires |Listed(candidates, had)| == 0 || |candidates| <= PAGE_LIMIT
    ensures NoTear(candidates, hints, had)
  {
    forall x, y | Tears(candidates, hints, x, y) ensures !Above(had, y) {
      SubsetSize(NotLower(candidates, y), candidates - {y});
      assert y in Listed(candidates, had) <==> Above(had, y);
    }
  }

  /** Whatever page the server draws, the listing with its hints leaves no hole below what it brings, apart from what
      the receiver had: exactly when nothing tears. The right side speaks of the candidates, the hints and the
      snapshot alone. */
  lemma {:induction false} ListingsHaveNoHole(candidates: Replica, hints: Replica, had: Replica)
    ensures (forall page | IsPage(candidates, page) ::
               DownwardIn(Listed(candidates, had), candidates * (page + hints)))
       <==> NoTear(candidates, hints, had)
  {
    if NoTear(candidates, hints, had) {
      forall page | IsPage(candidates, page)
        ensures DownwardIn(Listed(candidates, had), candidates * (page + hints))
      {
        NotTorn(candidates, hints, had, page);
      }
    } else {
      var x, y :| Tears(candidates, hints, x, y) && Above(had, y);
      var page;
      if x in hints {
        page := PageWithout(candidates, y);
      } else {
        page := PageWith(candidates, x, y);
      }
      assert x in candidates * (page + hints) && y !in candidates * (page + hints);
      assert y in Listed(candidates, had);
    }
  }

  // ----- what a pull saves -----

  /** The listed events that pass validation. */
  function Saved(page: Replica, valid: Entry -> bool): Replica {
    set e | e in page && valid(e)
  }

  /** Some page brings the valid `x` without the earlier `y` of its stream: either `y` does not validate, or the
      cut can fall between the two. */
  predicate Straddles(candidates: Replica, valid: Entry -> bool, x: Entry, y: Entry) {
    && x in candidates && y in candidates && SameStream(x.key, y.key) && x != y && y.key.sequence <= x.key.sequence
    && valid(x) && |Higher(candidates, x)| < PAGE_LIMIT
    && (valid(y) ==> |NotLower(candidates, y)| >= PAGE_LIMIT)
  }

  /** Only what the storage holds can be left out below a saved event. */
  ghost predicate NoStraddle(candidates: Replica, valid: Entry -> bool, storage: Replica) {
    forall x, y | Straddles(candidates, valid, x, y) :: y in storage
  }

  ghost predicate DownwardIn(candidates: Replica, saved: Replica) {
    forall x, y | x in saved && y in candidates && SameStream(x.key, y.key) && y.key.sequence <= x.key.sequence ::
      y in saved
  }

  /** Every page is saved without a hole if and only if nothing straddles. The right side speaks of the candidates and
      the storage alone, before any page is drawn. */
  lemma {:induction false} PagesHaveNoHole(candidates: Replica, valid: Entry -> bool, storage: Replica)
    ensures (forall page | IsPage(candidates, page) :: DownwardIn(candidates - storage, Saved(page, valid)))
       <==> NoStraddle(candidates, valid, storage)
  {
    if NoStraddle(candidates, valid, storage) {
      forall page | IsPage(candidates, page) ensures DownwardIn(candidates - storage, Saved(page, valid)) {
        NoHole(candidates, valid, storage, page);
      }
    } else {
      var x, y :| Straddles(candidates, valid, x, y) && y !in storage;
      var page := PageWith(candidates, x, y);
      assert x in Saved(page, valid) && y !in Saved(page, valid) && y in candidates - storage;
    }
  }

  lemma {:induction false} NoHole(candidates: Replica, valid: Entry -> bool, storage: Replica, page: Replica)
    requires NoStraddle(candidates, valid, storage) && IsPage(candidates, page)
    ensures DownwardIn(candidates - storage, Saved(page, valid))
  {
    forall x, y
      | x in Saved(page, valid) && y in candidates - storage && SameStream(x.key, y.key)
        && y.key.sequence <= x.key.sequence
      ensures y in Saved(page, valid)
    {
      InPage(candidates, page, x);
      if y !in page {
        OutOfPage(candidates, page, y);
      }
      assert Straddles(candidates, valid, x, y) ==> y in storage;
    }
  }

  lemma {:induction false} PrefixIffDownward(published: Replica, storage: Replica, heads: Replica, server: Replica,
                                             saved: Replica)
    requires IsPrefix(storage, published) && IsPrefix(server, published)
    requires heads <= storage && saved <= Listed(server, heads)
    ensures IsPrefix(Insert(storage, saved), published) <==> DownwardIn(Listed(server, heads) - storage, saved)
  {
    PrefixIsFree(storage, saved, published);
    var lacking, all := Listed(server, heads) - storage, storage + saved;
    if IsPrefix(all, published) {
      forall x, y | x in saved && y in lacking && SameStream(x.key, y.key) && y.key.sequence <= x.key.sequence
        ensures y in saved
      {
        assert x in all && y in all;
      }
    }
    if DownwardIn(lacking, saved) {
      forall x, y | x in all && y in published && SameStream(x.key, y.key) && y.key.sequence <= x.key.sequence
        ensures y in all
      {
        if x !in storage && y !in lacking {
          assert y in server;
        }
      }
    }
  }

  /** A pull whose filter heads lie within the storage: partial, full, or answered late. Whatever page the server
      draws, the storage stays a prefix exactly when nothing that it lacks straddles. */
  lemma {:induction false} PullKeepsPrefixes(published: Replica, storage: Replica, heads: Replica, server: Replica,
                                             valid: Entry -> bool)
    requires IsPrefix(storage, published) && IsPrefix(server, published) && heads <= storage
    ensures (forall page | IsPage(Listed(server, heads), page) ::
               IsPrefix(Insert(storage, Saved(page, valid)), published))
       <==> NoStraddle(Listed(server, heads), valid, storage)
  {
    var c := Listed(server, heads);
    PagesHaveNoHole(c, valid, storage);
    forall page | IsPage(c, page)
      ensures IsPrefix(Insert(storage, Saved(page, valid)), published)
         <==> DownwardIn(c - storage, Saved(page, valid))
    {
      PrefixIffDownward(published, storage, heads, server, Saved(page, valid));
    }
    assert (forall page | IsPage(c, page) :: IsPrefix(Insert(storage, Saved(page, valid)), published))
      <==> (forall page | IsPage(c, page) :: DownwardIn(c - storage, Saved(page, valid)));
  }

  lemma {:induction false} PageHolding(candidates: Replica, e: Entry) returns (page: Replica)
    requires e in candidates && |Higher(candidates, e)| < PAGE_LIMIT
    ensures IsPage(candidates, page) && e in page
  {
    if y :| y in candidates && y != e {
      page := PageWith(candidates, e, y);
    } else {
      page := candidates;
      assert candidates == {e};
    }
  }

  /** When a full pull fills a gap with an event whose key is free: for some page exactly when the event validates and
      fewer events than a page holds have a higher sequence, and for every page exactly when it validates and fewer
      others have one that is at least as high. */
  lemma {:induction false} FullPullFills(storage: Replica, server: Replica, valid: Entry -> bool, e: Entry)
    requires e in server - storage && !Occupied(storage, e.key)
    ensures (exists page | IsPage(Listed(server, {}), page) :: e in Insert(storage, Saved(page, valid)))
       <==> valid(e) && |Higher(server, e)| < PAGE_LIMIT
    ensures (forall page | IsPage(Listed(server, {}), page) :: e in Insert(storage, Saved(page, valid)))
       <==> valid(e) && |NotLower(server, e)| < PAGE_LIMIT
  {
    assert Listed(server, {}) == server;
    forall page ensures e in Insert(storage, Saved(page, valid)) <==> valid(e) && e in page {
    }
    forall page | IsPage(server, page) && e in page ensures |Higher(server, e)| < PAGE_LIMIT {
      InPage(server, page, e);
    }
    if |Higher(server, e)| < PAGE_LIMIT {
      var page := PageHolding(server, e);
    }
    forall page | IsPage(server, page) && e !in page ensures |NotLower(server, e)| >= PAGE_LIMIT {
      OutOfPage(server, page, e);
    }
    if |NotLower(server, e)| >= PAGE_LIMIT {
      var page := PageWithout(server, e);
    } else {
      SubsetSize(Higher(server, e), NotLower(server, e));
      var page := PageHolding(server, e);
    }
  }

  // ----- the protocol -----

  /** A server, or a device with its storage and its core. */
  datatype Site = Server(held: Replica) | Device(storage: Replica, core: Replica) {
    /** What the site takes its heads from. */
    function Announced(): Replica {
      match this case Server(held) => held case Device(storage, _) => storage
    }

    /** What the site sends from. */
    function Holds(): Replica {
      match this case Server(held) => held case Device(_, core) => core
    }

    /** A server stores the pushed events that it accepts. A device copies listed events and hints into the core and
        saves the events that validate. Nobody replaces an event. */
    function Accept(events: Replica, hints: Replica, valid: Entry -> bool): Site {
      match this
      case Server(held) => Server(Insert(held, Saved(events, valid)))
      case Device(storage, core) => Device(Insert(storage, Saved(events, valid)), Insert(core, events + hints))
    }
  }

  /** What a site had when it asked, and the heads to filter by: those of all it had, or none to ask for everything. */
  datatype Request = Request(to: nat, had: Replica, heads: Replica)

  /** Events on their way to a site that `had` so much when it asked. Only a listing carries hints. */
  datatype Reply = Reply(to: nat, had: Replica, events: Replica, hints: Replica)

  /** Requests and replies stay in the network: they may be answered or delivered late, repeatedly, or never. */
  datatype Net = Net(published: Replica, sites: seq<Site>, requests: set<Request>, replies: set<Reply>)

  /** `valid` is what validation says on the device at the moment of the step, or what the server accepts then. */
  datatype Step =
    | Publish(site: nat, entry: Entry)
    | Announce(to: nat, partial: bool)
    | PushAbove(from: nat, request: Request)
    | PushAll(from: nat, to: nat)
    | List(from: nat, request: Request, page: Replica, hints: Replica)
    | Receive(reply: Reply, valid: Entry -> bool)
    | Restart(site: nat)

  predicate IsSite(n: Net, i: nat, device: bool) {
    i < |n.sites| && n.sites[i].Device? == device
  }

  /** Each signer publishes on one device. The event replaces what the storage holds under its key; the core keeps what
      it has. */
  ghost predicate Next(owner: PublicKey -> nat, n: Net, step: Step, m: Net) {
    match step
    case Publish(i, e) =>
      && IsSite(n, i, true) && owner(e.key.signer) == i
      && m == n.(published := n.published + {e},
                 sites := n.sites[i := Device(Overwrite(n.sites[i].storage, e), Insert(n.sites[i].core, {e}))])
    case Announce(i, partial) =>
      && i < |n.sites|
      && m == n.(requests := n.requests
                   + {Request(i, n.sites[i].Announced(), if partial then n.sites[i].Announced() else {})})
    case PushAbove(i, request) =>
      && IsSite(n, i, true) && IsSite(n, request.to, false) && request in n.requests
      && m == n.(replies := n.replies
                   + {Reply(request.to, request.had, Offered(n.sites[i].core, Some(request.heads)), {})})
    case PushAll(i, j) =>
      && IsSite(n, i, true) && IsSite(n, j, false)
      && m == n.(replies := n.replies + {Reply(j, {}, Offered(n.sites[i].core, None), {})})
    case List(i, request, page, hints) =>
      && IsSite(n, i, false) && IsSite(n, request.to, true) && request in n.requests
      && IsPage(Listed(n.sites[i].held, request.heads), page) && hints <= n.sites[i].held
      && m == n.(replies := n.replies + {Reply(request.to, request.had, page, hints)})
    case Receive(reply, valid) =>
      && reply in n.replies && reply.to < |n.sites|
      && m == n.(sites := n.sites[reply.to := n.sites[reply.to].Accept(reply.events, reply.hints, valid)])
    case Restart(i) =>
      && IsSite(n, i, true)
      && m == n.(sites := n.sites[i := Device(n.sites[i].storage, n.sites[i].storage)])
  }

  /** No event that a delivery saves comes after one of its stream that the site lacks and that the delivery brings,
      listed or hinted, but does not save. */
  ghost predicate SavesInOrder(n: Net, step: Step) {
    step.Receive? && step.reply.to < |n.sites| ==>
      DownwardIn(step.reply.events + step.reply.hints - n.sites[step.reply.to].Announced(),
                 Saved(step.reply.events, step.valid))
  }

  /** The conditions can be checked before the step: a published event has a positive sequence above those of its
      stream in the core, the cut of a listing tears nothing off that the receiver did not have, a device that restarts
      has no hole in its storage, and a server accepts no event after one of its stream that it rejects. */
  ghost predicate Tame(n: Net, step: Step) {
    match step
    case Publish(i, e) => i < |n.sites| ==> e.key.sequence > 0 && Above(n.sites[i].Holds(), e)
    case List(i, request, _, hints) =>
      i < |n.sites| ==> NoTear(Listed(n.sites[i].Holds(), request.heads), hints, request.had)
    case Restart(i) => i < |n.sites| ==> IsPrefix(n.sites[i].Announced(), n.published)
    case Receive(reply, _) => reply.to < |n.sites| && n.sites[reply.to].Server? ==> SavesInOrder(n, step)
    case _ => true
  }

  ghost predicate Published(owner: PublicKey -> nat, n: Net) {
    && (forall e | e in n.published :: e.key.sequence > 0)
    && (forall e | e in n.published :: owner(e.key.signer) < |n.sites| && e in n.sites[owner(e.key.signer)].Announced())
    && (forall x, y | x in n.published && y in n.published && x.key == y.key :: x == y)
  }

  ghost predicate SoundSite(site: Site, published: Replica) {
    IsPrefix(site.Holds(), published) && site.Announced() <= site.Holds()
  }

  ghost predicate SoundRequest(n: Net, r: Request) {
    r.to < |n.sites| && r.heads <= r.had <= n.sites[r.to].Announced()
  }

  ghost predicate SoundReply(n: Net, r: Reply) {
    && r.to < |n.sites| && r.had <= n.sites[r.to].Announced()
    && Completes(r.had, r.events + r.hints, n.published)
  }

  /** Every server and every core holds a prefix of each published stream, and keeps doing so when the replies on
      their way arrive. A storage is part of its core. */
  ghost predicate Consistent(owner: PublicKey -> nat, n: Net) {
    && Published(owner, n)
    && (forall i | 0 <= i < |n.sites| :: SoundSite(n.sites[i], n.published))
    && (forall r | r in n.requests :: SoundRequest(n, r))
    && (forall r | r in n.replies :: SoundReply(n, r))
  }

  /** A tame publish adds its event everywhere it goes, and replaces nothing. */
  lemma {:induction false} PublishAbove(owner: PublicKey -> nat, n: Net, step: Step, m: Net)
    requires Consistent(owner, n) && step.Publish? && Next(owner, n, step, m) && Tame(n, step)
    ensures Above(n.published, step.entry)
    ensures m.sites[step.site] == Device(n.sites[step.site].storage + {step.entry},
                                         n.sites[step.site].core + {step.entry})
  {
    var e, site := step.entry, n.sites[step.site];
    assert SoundSite(site, n.published);
    AboveIsFree(site.core, {e});
    assert forall x | x in site.storage :: x.key == e.key ==> SameStream(x.key, e.key);
    assert (set x | x in site.storage && x.key != e.key) == site.storage;
  }

  lemma {:induction false} PublishedSites(owner: PublicKey -> nat, n: Net, step: Step, m: Net)
    requires Consistent(owner, n) && step.Publish? && Next(owner, n, step, m) && Tame(n, step)
    ensures forall j | 0 <= j < |m.sites| :: SoundSite(m.sites[j], m.published)
  {
    var e, i := step.entry, step.site;
    PublishAbove(owner, n, step, m);
    forall j | 0 <= j < |n.sites| ensures SoundSite(m.sites[j], m.published) {
      assert SoundSite(n.sites[j], n.published);
      if j == i {
        OwnPublish(n.sites[i].core, n.published, e);
      } else {
        PrefixPublish(n.sites[j].Holds(), n.published, e);
      }
    }
  }

  lemma {:induction false} PublishKeepsPublished(owner: PublicKey -> nat, n: Net, step: Step, m: Net)
    requires Consistent(owner, n) && step.Publish? && Next(owner, n, step, m) && Tame(n, step)
    ensures Published(owner, m)
  {
    PublishAbove(owner, n, step, m);
    forall x | x in n.published ensures x.key != step.entry.key {
      assert SameStream(x.key, step.entry.key) ==> x.key.sequence < step.entry.key.sequence;
    }
  }

  lemma {:induction false} PublishStep(owner: PublicKey -> nat, n: Net, step: Step, m: Net)
    requires Consistent(owner, n) && step.Publish? && Next(owner, n, step, m) && Tame(n, step)
    ensures Consistent(owner, m)
  {
    PublishKeepsPublished(owner, n, step, m);
    PublishAbove(owner, n, step, m);
    PublishedSites(owner, n, step, m);
    forall r | r in m.requests ensures SoundRequest(m, r) {
      assert SoundRequest(n, r);
    }
    forall r | r in m.replies ensures SoundReply(m, r) {
      assert SoundReply(n, r);
      CompletesPublish(r.had, r.events + r.hints, n.published, step.entry);
    }
  }

  /** Replacing a site by one that announces at least as much keeps requests and replies sound. */
  lemma {:induction false} GrowSite(owner: PublicKey -> nat, n: Net, i: nat, site: Site)
    requires Consistent(owner, n) && i < |n.sites|
    requires SoundSite(site, n.published) && n.sites[i].Announced() <= site.Announced()
    ensures Consistent(owner, n.(sites := n.sites[i := site]))
  {
    var m := n.(sites := n.sites[i := site]);
    forall r | r in m.requests ensures SoundRequest(m, r) {
      assert SoundRequest(n, r);
    }
    forall r | r in m.replies ensures SoundReply(m, r) {
      assert SoundReply(n, r);
    }
  }

  lemma {:induction false} StorageStaysInCore(site: Site, published: Replica, events: Replica, hints: Replica,
                                              valid: Entry -> bool)
    requires site.Device? && SoundSite(site, published) && events + hints <= published
    ensures site.Accept(events, hints, valid).storage <= site.Accept(events, hints, valid).core
  {
    PrefixIsFree(site.core, events + hints, published);
  }

  lemma {:induction false} ReceiveStep(owner: PublicKey -> nat, n: Net, step: Step, m: Net)
    requires Consistent(owner, n) && step.Receive? && Next(owner, n, step, m) && Tame(n, step)
    ensures Consistent(owner, m)
  {
    var reply := step.reply;
    var site := n.sites[reply.to];
    assert SoundReply(n, reply);
    if site.Device? {
      CompletedPrefix(site.core, reply.had, reply.events + reply.hints, n.published);
      StorageStaysInCore(site, n.published, reply.events, reply.hints, step.valid);
    } else {
      SavedKeepsPrefix(n.published, site.held, reply.had, reply.events, reply.hints, step.valid);
    }
    GrowSite(owner, n, reply.to, site.Accept(reply.events, reply.hints, step.valid));
  }

  lemma {:induction false} AnnounceStep(owner: PublicKey -> nat, n: Net, step: Step, m: Net)
    requires Consistent(owner, n) && step.Announce? && Next(owner, n, step, m)
    ensures Consistent(owner, m)
  {
    forall r | r in m.requests ensures SoundRequest(m, r) {
      assert r in n.requests ==> SoundRequest(n, r);
    }
    forall r | r in m.replies ensures SoundReply(m, r) {
      assert SoundReply(n, r);
    }
  }

  lemma {:induction false} ReplyStep(owner: PublicKey -> nat, n: Net, reply: Reply)
    requires Consistent(owner, n) && SoundReply(n, reply)
    ensures Consistent(owner, n.(replies := n.replies + {reply}))
  {
    var m := n.(replies := n.replies + {reply});
    forall r | r in m.requests ensures SoundRequest(m, r) {
      assert SoundRequest(n, r);
    }
    forall r | r in m.replies ensures SoundReply(m, r) {
      assert r in n.replies ==> SoundReply(n, r);
    }
  }

  lemma {:induction false} OfferedCompletes(from: Replica, had: Replica, heads: Replica, published: Replica)
    requires IsPrefix(from, published) && heads <= had && forall e | e in published :: e.key.sequence > 0
    ensures Completes(had, Offered(from, Some(heads)), published)
  {
  }

  lemma {:induction false} PageCompletes(from: Replica, had: Replica, heads: Replica, page: Replica, hints: Replica,
                                         published: Replica)
    requires IsPrefix(from, published) && hints <= from && heads <= had
    requires IsPage(Listed(from, heads), page) && NoTear(Listed(from, heads), hints, had)
    ensures Completes(had, page + hints, published)
  {
    var c, all := Listed(from, heads), page + hints;
    NotTorn(c, hints, had, page);
    forall x, y | x in all && y in published && SameStream(x.key, y.key) && y.key.sequence <= x.key.sequence
      ensures y in all || !Above(had, y)
    {
      assert y in from;
      if Above(had, y) {
        assert y in Listed(c, had) && x in c;
      }
    }
  }

  lemma {:induction false} SendStep(owner: PublicKey -> nat, n: Net, step: Step, m: Net)
    requires Consistent(owner, n) && (step.PushAbove? || step.PushAll? || step.List?)
    requires Next(owner, n, step, m) && Tame(n, step)
    ensures Consistent(owner, m)
  {
    match step
    case PushAll(i, j) =>
      assert SoundSite(n.sites[i], n.published);
      assert n.sites[i].core + {} == n.sites[i].core;
      ReplyStep(owner, n, Reply(j, {}, n.sites[i].core, {}));
    case PushAbove(i, request) =>
      assert SoundSite(n.sites[i], n.published) && SoundRequest(n, request);
      OfferedCompletes(n.sites[i].core, request.had, request.heads, n.published);
      var offered := Offered(n.sites[i].core, Some(request.heads));
      assert offered + {} == offered;
      ReplyStep(owner, n, Reply(request.to, request.had, offered, {}));
    case List(i, request, page, hints) =>
      assert SoundSite(n.sites[i], n.published) && SoundRequest(n, request);
      PageCompletes(n.sites[i].held, request.had, request.heads, page, hints, n.published);
      ReplyStep(owner, n, Reply(request.to, request.had, page, hints));
  }

  /** Every step keeps servers and cores on prefixes, if the step is tame. */
  lemma {:induction false} StepStaysConsistent(owner: PublicKey -> nat, n: Net, step: Step, m: Net)
    requires Consistent(owner, n) && Next(owner, n, step, m) && Tame(n, step)
    ensures Consistent(owner, m)
  {
    match step
    case Publish(_, _) => PublishStep(owner, n, step, m);
    case Receive(_, _) => ReceiveStep(owner, n, step, m);
    case Announce(_, _) => AnnounceStep(owner, n, step, m);
    case Restart(i) => GrowSite(owner, n, i, m.sites[i]);
    case _ => SendStep(owner, n, step, m);
  }

  /** A run from sites that hold nothing. */
  ghost predicate IsRun(owner: PublicKey -> nat, run: seq<Net>, steps: seq<Step>) {
    && |run| == |steps| + 1
    && run[0].published == {} && run[0].requests == {} && run[0].replies == {}
    && (forall i | 0 <= i < |run[0].sites| :: run[0].sites[i].Holds() == {} && run[0].sites[i].Announced() == {})
    && forall i | 0 <= i < |steps| :: Next(owner, run[i], steps[i], run[i + 1])
  }

  /** In every tame run, every server and every core holds a prefix of every published stream, and no two published
      events share a key, whatever validation says on the devices. */
  lemma {:induction false} RunsStayConsistent(owner: PublicKey -> nat, run: seq<Net>, steps: seq<Step>, i: nat)
    requires IsRun(owner, run, steps) && i < |run|
    requires forall j | 0 <= j < i :: Tame(run[j], steps[j])
    ensures Consistent(owner, run[i])
  {
    if i > 0 {
      RunsStayConsistent(owner, run, steps, i - 1);
      assert Next(owner, run[i - 1], steps[i - 1], run[i]);
      StepStaysConsistent(owner, run[i - 1], steps[i - 1], run[i]);
    }
  }

  // ----- sequences that are used twice -----

  ghost predicate KeysUnique(n: Net) {
    && (forall i | 0 <= i < |n.sites| :: OnePerKey(n.sites[i].Announced()) && OnePerKey(n.sites[i].Holds()))
    && (forall r | r in n.replies :: OnePerKey(r.events + r.hints))
  }

  lemma {:induction false} AcceptKeepsUnique(site: Site, events: Replica, hints: Replica, valid: Entry -> bool)
    requires OnePerKey(site.Announced()) && OnePerKey(site.Holds()) && OnePerKey(events + hints)
    ensures OnePerKey(site.Accept(events, hints, valid).Announced())
    ensures OnePerKey(site.Accept(events, hints, valid).Holds())
  {
    assert OnePerKey(Saved(events, valid)) by {
      assert forall e | e in events :: e in events + hints;
    }
    match site
    case Server(held) => KeysStayUnique(held, Saved(events, valid));
    case Device(storage, core) =>
      KeysStayUnique(storage, Saved(events, valid));
      KeysStayUnique(core, events + hints);
  }

  lemma {:induction false} StepKeepsKeysUnique(owner: PublicKey -> nat, n: Net, step: Step, m: Net)
    requires KeysUnique(n) && Next(owner, n, step, m)
    ensures KeysUnique(m)
  {
    match step
    case Publish(i, e) =>
      assert OnePerKey(Overwrite(n.sites[i].storage, e));
      KeysStayUnique(n.sites[i].core, {e});
    case Receive(reply, valid) =>
      AcceptKeepsUnique(n.sites[reply.to], reply.events, reply.hints, valid);
    case PushAbove(i, request) => PartIsUnique(n.sites[i].Holds(), Offered(n.sites[i].core, Some(request.heads)), {});
    case PushAll(i, _) => PartIsUnique(n.sites[i].Holds(), n.sites[i].core, {});
    case List(i, _, page, hints) => PartIsUnique(n.sites[i].Holds(), page, hints);
    case _ =>
  }

  lemma {:induction false} PartIsUnique(r: Replica, events: Replica, hints: Replica)
    requires OnePerKey(r) && events <= r && hints <= r
    ensures OnePerKey(events + hints)
  {
  }

  /** In every run, tame or not, nobody holds two events of one key. */
  lemma {:induction false} RunsKeepKeysUnique(owner: PublicKey -> nat, run: seq<Net>, steps: seq<Step>, i: nat)
    requires IsRun(owner, run, steps) && i < |run|
    ensures KeysUnique(run[i])
  {
    if i > 0 {
      RunsKeepKeysUnique(owner, run, steps, i - 1);
      assert Next(owner, run[i - 1], steps[i - 1], run[i]);
      StepKeepsKeysUnique(owner, run[i - 1], steps[i - 1], run[i]);
    }
  }

  /** In every run a server keeps the event that it held first under a key, and never holds another one. */
  lemma {:induction false} ServersKeepTheFirst(owner: PublicKey -> nat, run: seq<Net>, steps: seq<Step>, i: nat, j: nat,
                                               s: nat, x: Entry)
    requires IsRun(owner, run, steps) && i <= j < |run| && IsSite(run[i], s, false) && x in run[i].sites[s].held
    ensures IsSite(run[j], s, false) && x in run[j].sites[s].held
    ensures forall e | e in run[j].sites[s].held && e.key == x.key :: e == x
  {
    if i == j {
      RunsKeepKeysUnique(owner, run, steps, j);
    } else {
      ServersKeepTheFirst(owner, run, steps, i, j - 1, s, x);
      assert Next(owner, run[j - 1], steps[j - 1], run[j]);
    }
  }

  /** An event published under a taken key: the core drops it, so that no push sends it; the storage replaces the old
      event by it, and so has a hole. */
  lemma {:induction false} ReusedKeyIsLost(owner: PublicKey -> nat, n: Net, step: Step, m: Net, x: Entry)
    requires KeysUnique(n) && step.Publish? && Next(owner, n, step, m)
    requires x in n.sites[step.site].core && x.key == step.entry.key && x != step.entry
    ensures m.sites[step.site].core == n.sites[step.site].core
    ensures forall heads :: step.entry !in Offered(m.sites[step.site].core, heads)
    ensures step.entry in m.sites[step.site].storage && x !in m.sites[step.site].storage
    ensures x in n.published ==> !StoragesArePrefixes(m) && !Consistent(owner, m)
  {
    var e, site := step.entry, n.sites[step.site];
    assert OnePerKey(site.Holds()) && e !in site.core;
    assert Insert(site.core, {e}) == site.core;
    if x in n.published {
      assert m.sites[step.site].Announced() == Overwrite(site.storage, e);
      assert SameStream(e.key, x.key) && x in m.published && e in m.published;
    }
  }

  /** Another site holds all that is published of the stream. */
  ghost predicate StreamIsElsewhere(n: Net, i: nat, key: EventKey) {
    exists j | 0 <= j < |n.sites| && j != i ::
      forall x | x in n.published && SameStream(x.key, key) :: x in n.sites[j].Holds()
  }

  /** For a new event of a stream that has reached another site, the condition on publishing is exact. */
  lemma {:induction false} PublishStaysConsistentIff(owner: PublicKey -> nat, n: Net, step: Step, m: Net)
    requires Consistent(owner, n) && step.Publish? && Next(owner, n, step, m)
    requires step.entry !in n.published && StreamIsElsewhere(n, step.site, step.entry.key)
    ensures Consistent(owner, m) <==> Tame(n, step)
  {
    if Tame(n, step) {
      PublishStep(owner, n, step, m);
    } else if Consistent(owner, m) {
      PublishedIsAbove(owner, n, step, m);
    }
  }

  lemma {:induction false} PublishedIsAbove(owner: PublicKey -> nat, n: Net, step: Step, m: Net)
    requires Consistent(owner, n) && Consistent(owner, m) && step.Publish? && Next(owner, n, step, m)
    requires step.entry !in n.published && StreamIsElsewhere(n, step.site, step.entry.key)
    ensures Tame(n, step)
  {
    var e, i := step.entry, step.site;
    var j :| 0 <= j < |n.sites| && j != i
             && forall x | x in n.published && SameStream(x.key, e.key) :: x in n.sites[j].Holds();
    assert SoundSite(n.sites[i], n.published) && SoundSite(n.sites[j], n.published);
    assert SoundSite(m.sites[j], m.published) && m.sites[j] == n.sites[j];
    assert e in m.published && e !in m.sites[j].Holds();
    forall x | x in n.sites[i].Holds() && SameStream(x.key, e.key) ensures x.key.sequence < e.key.sequence {
      assert x in n.published && x in m.published && x in m.sites[j].Holds();
    }
  }

  // ----- holes in the storage -----

  ghost predicate StoragesArePrefixes(n: Net) {
    forall i | 0 <= i < |n.sites| :: IsPrefix(n.sites[i].Announced(), n.published)
  }

  /** The storage stays a prefix exactly when the delivery saves in order. */
  lemma {:induction false} SavedKeepsPrefix(published: Replica, storage: Replica, had: Replica, events: Replica,
                                            hints: Replica, valid: Entry -> bool)
    requires IsPrefix(storage, published) && had <= storage && Completes(had, events + hints, published)
    ensures IsPrefix(Insert(storage, Saved(events, valid)), published)
       <==> DownwardIn(events + hints - storage, Saved(events, valid))
  {
    var saved := Saved(events, valid);
    PrefixIsFree(storage, saved, published);
    var all := storage + saved;
    if IsPrefix(all, published) {
      forall x, y
        | x in saved && y in events + hints - storage && SameStream(x.key, y.key) && y.key.sequence <= x.key.sequence
        ensures y in saved
      {
        assert x in all && y in all;
      }
    }
    if DownwardIn(events + hints - storage, saved) {
      forall x, y | x in all && y in published && SameStream(x.key, y.key) && y.key.sequence <= x.key.sequence
        ensures y in all
      {
        if x !in storage && y !in events + hints {
          var z :| z in had && SameStream(z.key, y.key) && z.key.sequence >= y.key.sequence;
          assert z in storage;
        }
      }
    }
  }

  lemma {:induction false} PublishKeepsStorages(owner: PublicKey -> nat, n: Net, step: Step, m: Net)
    requires Consistent(owner, n) && StoragesArePrefixes(n) && step.Publish? && Next(owner, n, step, m)
    requires Tame(n, step)
    ensures StoragesArePrefixes(m)
  {
    var e, i := step.entry, step.site;
    PublishAbove(owner, n, step, m);
    forall j | 0 <= j < |m.sites| ensures IsPrefix(m.sites[j].Announced(), m.published) {
      PrefixPublish(n.sites[j].Announced(), n.published, e);
      OwnPublish(n.sites[i].storage, n.published, e);
    }
  }

  lemma {:induction false} ReceiveKeepsStorages(owner: PublicKey -> nat, n: Net, step: Step, m: Net)
    requires Consistent(owner, n) && StoragesArePrefixes(n) && step.Receive? && Next(owner, n, step, m)
    ensures StoragesArePrefixes(m) <==> SavesInOrder(n, step)
  {
    var reply := step.reply;
    var site := n.sites[reply.to];
    assert SoundReply(n, reply) && SoundSite(site, n.published);
    assert StoragesArePrefixes(m) <==> IsPrefix(m.sites[reply.to].Announced(), n.published);
    SavedKeepsPrefix(n.published, site.Announced(), reply.had, reply.events, reply.hints, step.valid);
  }

  lemma {:induction false} StepKeepsStorages(owner: PublicKey -> nat, n: Net, step: Step, m: Net)
    requires Consistent(owner, n) && StoragesArePrefixes(n) && Next(owner, n, step,
                                                                    m) && (step.Publish? ==> Tame(n, step))
    ensures StoragesArePrefixes(m) <==> SavesInOrder(n, step)
  {
    match step
    case Publish(_, _) => PublishKeepsStorages(owner, n, step, m);
    case Receive(_, _) => ReceiveKeepsStorages(owner, n, step, m);
    case _ => assert forall i | 0 <= i < |n.sites| :: m.sites[i].Announced() == n.sites[i].Announced();
  }

  ghost predicate AllStorages(run: seq<Net>, n: nat)
    requires n < |run|
  {
    forall i | 0 <= i <= n :: StoragesArePrefixes(run[i])
  }

  ghost predicate AllInOrder(run: seq<Net>, steps: seq<Step>, n: nat)
    requires n <= |steps| && n <= |run|
  {
    forall j | 0 <= j < n :: SavesInOrder(run[j], steps[j])
  }

  /** Over whole runs: every storage is a prefix at all times if and only if every delivery saves in order. Restarts
      need no condition then. */
  lemma {:induction false} RunsKeepStorages(owner: PublicKey -> nat, run: seq<Net>, steps: seq<Step>, n: nat)
    requires IsRun(owner, run, steps) && n < |run|
    requires forall j | 0 <= j < n && (steps[j].List? || steps[j].Publish?) :: Tame(run[j], steps[j])
    ensures AllStorages(run, n) <==> AllInOrder(run, steps, n)
    ensures AllStorages(run, n) ==> Consistent(owner, run[n])
  {
    if n > 0 {
      RunsKeepStorages(owner, run, steps, n - 1);
      assert AllStorages(run, n) <==> AllStorages(run, n - 1) && StoragesArePrefixes(run[n]);
      assert AllInOrder(run, steps, n) <==> AllInOrder(run, steps, n - 1) && SavesInOrder(run[n - 1], steps[n - 1]);
      if AllStorages(run, n - 1) {
        assert StoragesArePrefixes(run[n - 1]) && Next(owner, run[n - 1], steps[n - 1], run[n]);
        StepWithPrefixes(owner, run[n - 1], steps[n - 1], run[n]);
      }
    }
  }

  lemma {:induction false} StepWithPrefixes(owner: PublicKey -> nat, n: Net, step: Step, m: Net)
    requires Consistent(owner, n) && StoragesArePrefixes(n) && Next(owner, n, step, m)
    requires step.List? || step.Publish? ==> Tame(n, step)
    ensures StoragesArePrefixes(m) <==> SavesInOrder(n, step)
    ensures SavesInOrder(n, step) ==> Consistent(owner, m)
  {
    StepKeepsStorages(owner, n, step, m);
    if SavesInOrder(n, step) {
      TameWithPrefixes(owner, n, step, m);
      StepStaysConsistent(owner, n, step, m);
    }
  }

  lemma {:induction false} TameWithPrefixes(owner: PublicKey -> nat, n: Net, step: Step, m: Net)
    requires StoragesArePrefixes(n) && Next(owner, n, step, m) && SavesInOrder(n, step)
    requires step.List? || step.Publish? ==> Tame(n, step)
    ensures Tame(n, step)
  {
  }

  // ----- convergence -----

  lemma {:induction false} EqualWhenAllSaved(storage: Replica, all: Replica, page: Replica, valid: Entry -> bool)
    requires IsPage(Listed(all, storage), page)
    ensures Insert(storage, Saved(page, valid)) == all
       <==> storage <= all && |all - storage| <= PAGE_LIMIT
            && forall e | e in all - storage :: Above(storage, e) && valid(e)
  {
    var candidates, saved := Listed(all, storage), Saved(page, valid);
    AboveIsFree(storage, saved);
    assert candidates <= all - storage;
    PageIsComplete(candidates, page);
    if !(storage <= all) {
      assert storage <= storage + saved;
      return;
    }
    CompletesWhenAll(storage, all, saved);
    if saved == all - storage {
      assert page == all - storage;
    } else if |all - storage| <= PAGE_LIMIT {
      SubsetSize(candidates, all - storage);
      assert page == candidates;
    }
  }

  lemma {:induction false} CompletesWhenAll<T>(a: set<T>, all: set<T>, more: set<T>)
    requires a <= all && more <= all - a
    ensures a + more == all <==> more == all - a
  {
    if a + more == all {
      forall e | e in all - a ensures e in more {
        assert e in a + more;
      }
    }
  }

  /** A partial push followed by a partial pull. The storage equals the server if and only if the server has or accepts
      everything stored, and what the storage lacks of it fits into one page, lies above the heads and validates.
      Where the storage is a prefix and the server accepts every push, the server ends with what both held, and
      everything the storage lacks lies above its heads. */
  lemma {:induction false} PushThenPull(published: Replica, device: Site, server: Replica, accepted: Entry -> bool,
                                        page: Replica, valid: Entry -> bool)
    requires device.Device? && SoundSite(device, published) && IsPrefix(server, published)
    requires forall e | e in published :: e.key.sequence > 0
    requires IsPage(Listed(Insert(server, Saved(Offered(device.core, Some(server)), accepted)), device.storage), page)
    ensures Offered(device.core, Some(server)) == device.core - server
    ensures var after := Insert(server, Saved(device.core - server, accepted));
            Insert(device.storage, Saved(page, valid)) == after
            <==> (forall e | e in device.storage - server :: accepted(e))
                 && |after - device.storage| <= PAGE_LIMIT
                 && forall e | e in after - device.storage :: Above(device.storage, e) && valid(e)
    ensures (forall e | e in device.core - server :: accepted(e)) ==>
              Insert(server, Saved(device.core - server, accepted)) == device.core + server
    ensures IsPrefix(device.storage, published) ==>
              forall e | e in device.core + server - device.storage :: Above(device.storage, e)
  {
    PartialIsFull(device.core, server, published);
    ServerAfterPush(published, device.core, server, accepted);
    StoredAfterPush(device.storage, device.core, server, accepted);
    EqualWhenAllSaved(device.storage, Insert(server, Saved(device.core - server, accepted)), page, valid);
    if IsPrefix(device.storage, published) {
      LacksAboveHeads(published, device.storage, device.core + server);
    }
  }

  lemma {:induction false} ServerAfterPush(published: Replica, core: Replica, server: Replica, accepted: Entry -> bool)
    requires IsPrefix(core, published) && IsPrefix(server, published)
    ensures Insert(server, Saved(core - server, accepted)) == server + Saved(core - server, accepted)
    ensures (forall e | e in core - server :: accepted(e)) ==>
              Insert(server, Saved(core - server, accepted)) == core + server
  {
    PrefixIsFree(server, Saved(core - server, accepted), published);
    if forall e | e in core - server :: accepted(e) {
      UnionOfRest(server, core);
      assert Saved(core - server, accepted) == core - server;
    }
  }

  lemma {:induction false} StoredAfterPush(storage: Replica, core: Replica, server: Replica, accepted: Entry -> bool)
    requires storage <= core
    ensures storage <= server + Saved(core - server, accepted) <==> forall e | e in storage - server :: accepted(e)
  {
  }

  /** A partial push and a partial pull as steps of the protocol, with nothing in between: the steps are possible, and
      the server and the device end in the sets that `PushThenPull` is about. */
  lemma {:induction false} PushThenPullSteps(owner: PublicKey -> nat, n: Net, i: nat, j: nat, accepted: Entry -> bool,
                                             page: Replica, hints: Replica, valid: Entry -> bool)
    returns (run: seq<Net>)
    requires IsSite(n, i, true) && IsSite(n, j, false)
    requires var (device, server) := (n.sites[i], n.sites[j].held);
             var after := Insert(server, Saved(Offered(device.core, Some(server)), accepted));
             IsPage(Listed(after, device.storage), page) && hints <= after
    ensures |run| == 7 && run[0] == n
    ensures var (device, server) := (n.sites[i], n.sites[j].held);
            && Next(owner, run[0], Announce(j, true), run[1])
            && Next(owner, run[1], PushAbove(i, Request(j, server, server)), run[2])
            && Next(owner, run[2], Receive(Reply(j, server, Offered(device.core, Some(server)), {}), accepted), run[3])
            && Next(owner, run[3], Announce(i, true), run[4])
            && Next(owner, run[4], List(j, Request(i, device.storage, device.storage), page, hints), run[5])
            && Next(owner, run[5], Receive(Reply(i, device.storage, page, hints), valid), run[6])
    ensures var (device, server) := (n.sites[i], n.sites[j].held);
            && run[6].sites
               == n.sites[j := Server(Insert(server, Saved(Offered(device.core, Some(server)), accepted)))]
                         [i := Device(Insert(device.storage, Saved(page, valid)), Insert(device.core, page + hints))]
            && run[6].published == n.published
  {
    var (device, server) := (n.sites[i], n.sites[j].held);
    var sent := Reply(j, server, Offered(device.core, Some(server)), {});
    var listed := Reply(i, device.storage, page, hints);
    var asked, asks := Request(j, server, server), Request(i, device.storage, device.storage);
    var after := n.sites[j := Server(Insert(server, Saved(sent.events, accepted)))];
    var last := after[i := Device(Insert(device.storage, Saved(page, valid)), Insert(device.core, page + hints))];
    run := [n,
            n.(requests := n.requests + {asked}),
            n.(requests := n.requests + {asked}, replies := n.replies + {sent}),
            n.(requests := n.requests + {asked}, replies := n.replies + {sent}, sites := after),
            n.(requests := n.requests + {asked} + {asks}, replies := n.replies + {sent}, sites := after),
            n.(requests := n.requests + {asked} + {asks}, replies := n.replies + {sent} + {listed}, sites := after),
            n.(requests := n.requests + {asked} + {asks}, replies := n.replies + {sent} + {listed}, sites := last)];
  }

  /** A full push offers the server the whole core. */
  lemma {:induction false} FullPushSteps(owner: PublicKey -> nat, n: Net, i: nat, j: nat, accepted: Entry -> bool)
    returns (m: Net, m': Net)
    requires IsSite(n, i, true) && IsSite(n, j, false)
    ensures Next(owner, n, PushAll(i, j), m)
    ensures Next(owner, m, Receive(Reply(j, {}, n.sites[i].core, {}), accepted), m')
    ensures m'.sites == n.sites[j := Server(Insert(n.sites[j].held, Saved(n.sites[i].core, accepted)))]
  {
    m := n.(replies := n.replies + {Reply(j, {}, n.sites[i].core, {})});
    m' := m.(sites := n.sites[j := Server(Insert(n.sites[j].held, Saved(n.sites[i].core, accepted)))]);
  }

  /** What a core holds beyond its storage is gone after a restart, until it is listed again. */
  lemma {:induction false} RestartForgets(owner: PublicKey -> nat, n: Net, i: nat, m: Net, e: Entry)
    requires Next(owner, n, Restart(i), m) && e in n.sites[i].core
    ensures e in m.sites[i].core <==> e in n.sites[i].storage
    ensures m.sites[i].storage == n.sites[i].storage && m.published == n.published
  {
  }

  /** What a prefix lacks lies above its heads. */
  lemma {:induction false} LacksAboveHeads(published: Replica, storage: Replica, all: Replica)
    requires IsPrefix(storage, published) && all <= published
    ensures forall e | e in all - storage :: Above(storage, e)
  {
  }

  lemma {:induction false} UnionOfRest(a: Replica, b: Replica)
    ensures a + (b - a) == b + a
  {
  }

  /** The server after the devices have pushed to it, one after the other. */
  function PushedBy(devices: seq<Site>, server: Replica, accepted: Entry -> bool): Replica {
    if devices == [] then server
    else
      PushedBy(devices[1..], Insert(server, Saved(Offered(devices[0].Holds(), Some(server)), accepted)), accepted)
  }

  ghost predicate AcceptsAll(devices: seq<Site>, accepted: Entry -> bool) {
    forall d, e | d in devices && e in d.Holds() :: accepted(e)
  }

  lemma {:induction false} PushedIsUnion(published: Replica, devices: seq<Site>, server: Replica,
                                         accepted: Entry -> bool)
    requires IsPrefix(server, published) && AcceptsAll(devices, accepted)
    requires forall d | d in devices :: IsPrefix(d.Holds(), published)
    requires forall e | e in published :: e.key.sequence > 0
    ensures forall e ::
              e in PushedBy(devices, server, accepted) <==> e in server || exists d | d in devices :: e in d.Holds()
    decreases |devices|
  {
    if devices != [] {
      var d, rest := devices[0], devices[1..];
      assert forall x :: x in devices <==> x == d || x in rest by { assert devices == [d] + rest; }
      PartialIsFull(d.Holds(), server, published);
      PrefixUnion(server, d.Holds(), published);
      assert Saved(d.Holds() - server, accepted) == d.Holds() - server;
      PrefixIsFree(server, d.Holds() - server, published);
      assert server + (d.Holds() - server) == server + d.Holds();
      PushedIsUnion(published, rest, server + d.Holds(), accepted);
    }
  }

  /** All devices push, then all pull. Each storage ends equal to the server if and only if the server has all of it,
      and what it lacks fits into one page, lies above its heads and validates. If the server accepts everything, it
      becomes the union of itself and all cores, and so has all of every storage. */
  lemma {:induction false} SyncRoundConverges(published: Replica, devices: seq<Site>, server: Replica,
                                              accepted: Entry -> bool, i: nat, page: Replica, valid: Entry -> bool)
    requires i < |devices| && devices[i].Device? && IsPrefix(server, published)
    requires forall d | d in devices :: SoundSite(d, published)
    requires forall e | e in published :: e.key.sequence > 0
    requires IsPage(Listed(PushedBy(devices, server, accepted), devices[i].storage), page)
    ensures var all := PushedBy(devices, server, accepted);
            Insert(devices[i].storage, Saved(page, valid)) == all
            <==> devices[i].storage <= all && |all - devices[i].storage| <= PAGE_LIMIT
                 && forall e | e in all - devices[i].storage :: Above(devices[i].storage, e) && valid(e)
    ensures AcceptsAll(devices, accepted) ==>
              var all := PushedBy(devices, server, accepted);
              && (forall e :: e in all <==> e in server || exists d | d in devices :: e in d.Holds())
              && devices[i].storage <= all
  {
    assert devices[i] in devices;
    EqualWhenAllSaved(devices[i].storage, PushedBy(devices, server, accepted), page, valid);
    if AcceptsAll(devices, accepted) {
      PushedIsUnion(published, devices, server, accepted);
    }
  }

  // ----- events that never arrive -----

  /** One partial pull: the server's events, the page it draws, and what validates on the device then. */
  datatype Pulled = Pulled(server: Replica, page: Replica, valid: Entry -> bool)

  /** A storage after partial pulls. */
  ghost predicate AfterPulls(storage: Replica, pulls: seq<Pulled>, after: Replica)
    decreases |pulls|
  {
    if pulls == [] then after == storage
    else
      && IsPage(Listed(pulls[0].server, storage), pulls[0].page)
      && AfterPulls(Insert(storage, Saved(pulls[0].page, pulls[0].valid)), pulls[1..], after)
  }

  /** An event that lies below one the storage holds of the same stream never arrives by partial pulls. */
  lemma {:induction false} GapIsPermanent(storage: Replica, pulls: seq<Pulled>, after: Replica, e: Entry)
    requires AfterPulls(storage, pulls, after)
    requires e !in storage && !Above(storage, e)
    ensures e !in after
    decreases |pulls|
  {
    if pulls != [] {
      var next := Insert(storage, Saved(pulls[0].page, pulls[0].valid));
      var x :| x in storage && SameStream(x.key, e.key) && x.key.sequence >= e.key.sequence;
      assert x in next;
      GapIsPermanent(next, pulls[1..], after, e);
    }
  }

  /** When more events of one stream are missing than a page holds, some event is not listed; once anything of the
      page is saved, that event lies below the heads. */
  lemma {:induction false} TruncationLosesEvents(storage: Replica, server: Replica, page: Replica, valid: Entry -> bool)
    returns (lost: Entry)
    requires IsPage(Listed(server, storage), page) && |Listed(server, storage)| > PAGE_LIMIT
    requires forall x, y | x in Listed(server, storage) && y in Listed(server, storage) :: SameStream(x.key, y.key)
    ensures lost in server - storage && lost !in page
    ensures Saved(page, valid) != {} ==> !Above(Insert(storage, Saved(page, valid)), lost)
  {
    PageIsComplete(Listed(server, storage), page);
    lost :| lost in Listed(server, storage) && lost !in page;
    assert lost !in storage;
    if x :| x in Saved(page, valid) {
      assert lost.key.sequence <= x.key.sequence && SameStream(x.key, lost.key);
      AboveIsFree(storage, Saved(page, valid));
      assert x in Insert(storage, Saved(page, valid));
    }
  }
}
