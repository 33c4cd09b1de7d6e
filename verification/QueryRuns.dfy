/**
 Whole runs of a query: fan-outs begin, their tasks report in any order, the cache is read
 and invalidated. Pages carry the epoch and mode of the fan-out that fetched them.
 */
module QueryRuns {
  import opened Primitives
  import opened QueryCache

  datatype Page<+V> = Page(value: V, epoch: nat, mode: UpdateMode)

  /** A fan-out: its servers, its counters, the tasks that have reported and those of them that succeeded, how
      often a task found itself to be the last, and the snapshots taken so far. */
  datatype Running<+V> = Running(
    servers: seq<Text>,
    counters: Fanout,
    finished: set<nat>,
    succeeded: set<nat>,
    closings: nat,
    snapshots: seq<QueryResult<Page<V>>>)

  /** A response handed to the cache. */
  datatype Delivery<+V> = Delivery(server: Text, page: Page<V>)

  /** `invalidatedAt` is the epoch of the last invalidation, and `log` lists the deliveries since. */
  datatype Run<+V> = Run(cache: Cache<Page<V>>, fanouts: seq<Running<V>>, invalidatedAt: nat, log: seq<Delivery<V>>)

  datatype Action<+V> =
    | Begin(mode: UpdateMode, emit: EmitMode, servers: seq<Text>)
    | Respond(fanout: nat, task: nat, result: Result<V>)
    | Read
    | Invalidate

  /** A fan-out has at least one server, and each of its tasks reports at most once. */
  predicate Enabled<V>(r: Run<V>, a: Action<V>) {
    match a
    case Begin(_, _, servers) => servers != []
    case Respond(k, i, _) =>
      k < |r.fanouts| && i < |r.fanouts[k].servers| && i !in r.fanouts[k].finished && r.fanouts[k].counters.pending > 0
    case _ => true
  }

  function Tagged<V>(f: Fanout, result: Result<V>): Result<Page<V>> {
    match result
    case Ok(v) => Ok(Page(v, f.epoch, f.mode))
    case Err => Err
  }

  ghost function Outcome<V>(r: Run<V>, k: nat, i: nat, result: Result<V>, merge: MergeFn<Page<V>>)
    : (Cache<Page<V>>, Fanout, Option<QueryResult<Page<V>>>)
    requires Enabled(r, Respond(k, i, result))
  {
    var f := r.fanouts[k];
    Reported(r.cache, f.counters, f.servers[i], Tagged(f.counters, result), merge)
  }

  ghost function Answered<V>(f: Running<V>, i: nat, ok: bool, counters: Fanout,
                             snapshot: Option<QueryResult<Page<V>>>): Running<V> {
    Running(f.servers, counters, f.finished + {i}, if ok then f.succeeded + {i} else f.succeeded,
            if counters.pending == 0 then f.closings + 1 else f.closings,
            if snapshot.Some? then f.snapshots + [snapshot.value] else f.snapshots)
  }

  ghost function Next<V>(r: Run<V>, a: Action<V>, merge: MergeFn<Page<V>>): Run<V>
    requires Enabled(r, a)
  {
    match a
    case Begin(mode, emit, servers) =>
      var cache := Begun(r.cache, mode);
      r.(cache := cache,
         fanouts := r.fanouts + [Running(servers, Fanout(cache.epoch, mode, emit, |servers|, 0), {}, {}, 0, [])])
    case Respond(k, i, result) =>
      var f := r.fanouts[k];
      var (cache, counters, snapshot) := Outcome(r, k, i, result, merge);
      Run(cache, r.fanouts[k := Answered(f, i, result.Ok?, counters, snapshot)], r.invalidatedAt,
          if result.Ok? then r.log + [Delivery(f.servers[i], Page(result.value, counters.epoch, counters.mode))]
          else r.log)
    case Read =>
      r.(cache := Emitted(r.cache, merge))
    case Invalidate =>
      Run(Invalidated(r.cache), r.fanouts, r.cache.epoch + 1, [])
  }

  // ----- what every run keeps: the cache -----

  /** No stale merge: after a replace page come only merge pages of strictly later fan-outs. */
  ghost predicate Fresh<V>(info: Info<Page<V>>, c: Cache<Page<V>>) {
    && info.pages != []
    && info.epoch <= c.epoch
    && (forall p | p in info.pages :: 0 < p.epoch <= info.epoch && (p.mode == Replace ==> p.epoch <= c.latestReplace))
    && (exists p | p in info.pages :: p.epoch == info.epoch)
    && (forall j | 0 < j < |info.pages| :: info.pages[j].mode == Merge)
    && (info.pages[0].mode == Replace ==> forall j | 0 < j < |info.pages| :: info.pages[j].epoch > info.pages[0].epoch)
  }

  ghost predicate FreshCache<V>(c: Cache<Page<V>>) {
    c.latestReplace <= c.epoch && forall s | s in c.data :: Fresh(c.data[s], c)
  }

  ghost predicate IsReplace<V>(r: Run<V>, k: int) {
    0 <= k < |r.fanouts| && r.fanouts[k].counters.mode == Replace
  }

  /** Epochs number the fan-outs in the order they began. */
  ghost predicate EpochsInOrder<V>(r: Run<V>) {
    && (forall k | 0 <= k < |r.fanouts| :: 0 < r.fanouts[k].counters.epoch <= r.cache.epoch)
    && (forall j, k | 0 <= j < k < |r.fanouts| :: r.fanouts[j].counters.epoch < r.fanouts[k].counters.epoch)
  }

  /** The latest replacement is the last invalidation or the last replace fan-out, and no merge fan-out. */
  ghost predicate LatestReplacement<V>(r: Run<V>) {
    && r.invalidatedAt <= r.cache.latestReplace
    && (r.cache.latestReplace == r.invalidatedAt
        || exists k :: IsReplace(r, k) && r.fanouts[k].counters.epoch == r.cache.latestReplace)
    && (forall k | IsReplace(r, k) :: r.fanouts[k].counters.epoch <= r.cache.latestReplace)
    && (forall k | 0 <= k < |r.fanouts| && !IsReplace(r, k) :: r.fanouts[k].counters.epoch != r.cache.latestReplace)
  }

  // ----- what every run keeps: the counters -----

  ghost predicate SnapshotsCounted<V>(f: Running<V>) {
    match f.counters.emit
    case Settled => |f.snapshots| == (if f.counters.pending == 0 then 1 else 0)
    case Eager => |f.snapshots| == |f.finished|
  }

  ghost predicate SnapshotsLabelled<V>(f: Running<V>) {
    && (forall q | q in f.snapshots :: q.status == Loading <==> q.pendingServers != 0)
    && (f.counters.emit == Eager ==>
          forall j | 0 <= j < |f.snapshots| :: f.snapshots[j].pendingServers == |f.servers| - 1 - j)
    && (f.counters.pending == 0 ==> ClosedBy(f))
  }

  /** The last snapshot counts every server. */
  ghost predicate ClosedBy<V>(f: Running<V>) {
    f.snapshots != [] &&
    var last := f.snapshots[|f.snapshots| - 1];
    last.pendingServers == 0 && last.successfulServers == |f.succeeded|
  }

  /** Pending and finished tasks add up to the servers, and exactly one task closes the fan-out: the last. */
  ghost predicate Accounted<V>(f: Running<V>) {
    && f.servers != []
    && (forall i | i in f.finished :: i < |f.servers|)
    && f.succeeded <= f.finished
    && f.counters.pending + |f.finished| == |f.servers|
    && f.counters.successful == |f.succeeded|
    && f.closings == (if f.counters.pending == 0 then 1 else 0)
    && SnapshotsCounted(f)
    && SnapshotsLabelled(f)
  }

  ghost predicate Sound<V>(r: Run<V>) {
    && FreshCache(r.cache)
    && EpochsInOrder(r)
    && LatestReplacement(r)
    && forall k | 0 <= k < |r.fanouts| :: Accounted(r.fanouts[k])
  }

  lemma {:induction false} FreshUpdate<V>(c: Cache<Page<V>>, server: Text, page: Page<V>)
    requires FreshCache(c) && 0 < page.epoch <= c.epoch
    requires if page.mode == Replace then page.epoch <= c.latestReplace else page.epoch != c.latestReplace
    ensures FreshCache(Updated(c, server, page, page.epoch, page.mode))
  {
    var c' := Updated(c, server, page, page.epoch, page.mode);
    if c' != c {
      var info, info' := InfoOf(c.data, server), c'.data[server];
      if page.mode == Replace {
        assert page in [page];
        assert Fresh(info', c');
      } else {
        FreshMerge(c, server, page);
      }
      forall s | s in c'.data ensures Fresh(c'.data[s], c') {
        if s != server {
          assert Fresh(c.data[s], c);
        }
      }
    }
  }

  lemma {:induction false} FreshMerge<V>(c: Cache<Page<V>>, server: Text, page: Page<V>)
    requires FreshCache(c) && 0 < page.epoch <= c.epoch
    requires page.mode == Merge && page.epoch > c.latestReplace
    ensures Fresh(Updated(c, server, page, page.epoch, Merge).data[server], Updated(c, server, page, page.epoch, Merge))
  {
    var info := InfoOf(c.data, server);
    var info' := UpdatedInfo(info, page, page.epoch, Merge);
    assert page in info'.pages;
    if info.pages != [] {
      assert Fresh(info, c);
      assert info'.pages[0] == info.pages[0] && info.pages[0] in info.pages;
      var p :| p in info.pages && p.epoch == info.epoch;
      assert p in info'.pages;
    }
  }

  lemma {:induction false} FreshBegin<V>(c: Cache<Page<V>>, mode: UpdateMode)
    requires FreshCache(c)
    ensures FreshCache(Begun(c, mode))
  {
    forall s | s in c.data ensures Fresh(c.data[s], Begun(c, mode)) {
      assert Fresh(c.data[s], c);
    }
  }

  lemma {:induction false} FreshEmitted<V>(c: Cache<Page<V>>, merge: MergeFn<Page<V>>)
    requires FreshCache(c)
    ensures FreshCache(Emitted(c, merge))
  {
    forall s | s in c.data ensures Fresh(c.data[s], Emitted(c, merge)) {
      assert Fresh(c.data[s], c);
    }
  }

  /** What a report adds to the counters and the snapshots of its fan-out. */
  ghost predicate IsReport<V>(f: Running<V>, ok: bool, counters: Fanout, snapshot: Option<QueryResult<Page<V>>>)
    requires f.counters.pending > 0
  {
    && counters == f.counters.(pending := f.counters.pending - 1,
                               successful := if ok then f.counters.successful + 1 else f.counters.successful)
    && (snapshot.None? <==> counters.emit == Settled && counters.pending != 0)
    && (snapshot.Some? ==> snapshot.value.pendingServers == counters.pending)
    && (snapshot.Some? ==> snapshot.value.successfulServers == counters.successful)
    && (snapshot.Some? ==> (snapshot.value.status == Loading <==> counters.pending != 0))
  }

  lemma {:induction false} AnsweredIsCounted<V>(f: Running<V>, i: nat, ok: bool, counters: Fanout,
                                                snapshot: Option<QueryResult<Page<V>>>)
    requires Accounted(f) && i < |f.servers| && i !in f.finished && f.counters.pending > 0
    requires IsReport(f, ok, counters, snapshot)
    ensures var f' := Answered(f, i, ok, counters, snapshot);
            |f'.finished| == |f.finished| + 1 && |f'.succeeded| == counters.successful && SnapshotsCounted(f')
  {
    assert |f.finished + {i}| == |f.finished| + 1;
    assert i !in f.succeeded && |f.succeeded + {i}| == |f.succeeded| + 1;
  }

  lemma {:induction false} AnsweredIsAccounted<V>(f: Running<V>, i: nat, ok: bool, counters: Fanout,
                                                  snapshot: Option<QueryResult<Page<V>>>)
    requires Accounted(f) && i < |f.servers| && i !in f.finished && f.counters.pending > 0
    requires IsReport(f, ok, counters, snapshot)
    ensures Accounted(Answered(f, i, ok, counters, snapshot))
  {
    AnsweredIsCounted(f, i, ok, counters, snapshot);
    assert SnapshotsLabelled(Answered(f, i, ok, counters, snapshot));
  }

  lemma {:induction false} RespondKeepsCache<V>(r: Run<V>, k: nat, i: nat, result: Result<V>, merge: MergeFn<Page<V>>)
    requires Sound(r) && Enabled(r, Respond(k, i, result))
    ensures FreshCache(Outcome(r, k, i, result, merge).0)
  {
    var f := r.fanouts[k];
    var c := r.cache;
    if result.Ok? {
      var page := Page(result.value, f.counters.epoch, f.counters.mode);
      FreshUpdate(c, f.servers[i], page);
      c := Updated(c, f.servers[i], page, page.epoch, page.mode);
    }
    FreshEmitted(c, merge);
  }

  lemma {:induction false} RespondIsAccounted<V>(r: Run<V>, k: nat, i: nat, result: Result<V>, merge: MergeFn<Page<V>>)
    requires Sound(r) && Enabled(r, Respond(k, i, result))
    ensures forall j | 0 <= j < |r.fanouts| :: Accounted(Next(r, Respond(k, i, result), merge).fanouts[j])
  {
    var o := Outcome(r, k, i, result, merge);
    AnsweredIsAccounted(r.fanouts[k], i, result.Ok?, o.1, o.2);
  }

  lemma {:induction false} BeginKeepsEpochs<V>(r: Run<V>, mode: UpdateMode, emit: EmitMode, servers: seq<Text>,
                                               merge: MergeFn<Page<V>>)
    requires Sound(r) && servers != []
    ensures EpochsInOrder(Next(r, Begin(mode, emit, servers), merge))
    ensures LatestReplacement(Next(r, Begin(mode, emit, servers), merge))
  {
    var r' := Next(r, Begin(mode, emit, servers), merge);
    assert forall k | 0 <= k < |r.fanouts| :: r'.fanouts[k] == r.fanouts[k];
    assert forall k | k != |r.fanouts| :: IsReplace(r', k) <==> IsReplace(r, k);
    if mode == Replace {
      assert IsReplace(r', |r.fanouts|);
    } else if r.cache.latestReplace != r.invalidatedAt {
      var k :| IsReplace(r, k) && r.fanouts[k].counters.epoch == r.cache.latestReplace;
      assert IsReplace(r', k);
    }
  }

  ghost predicate SameFanouts<V>(r: Run<V>, r': Run<V>) {
    && |r'.fanouts| == |r.fanouts|
    && forall j | 0 <= j < |r.fanouts| ::
         && r'.fanouts[j].counters.epoch == r.fanouts[j].counters.epoch
         && r'.fanouts[j].counters.mode == r.fanouts[j].counters.mode
  }

  lemma {:induction false} SameKeepsEpochs<V>(r: Run<V>, r': Run<V>)
    requires EpochsInOrder(r) && LatestReplacement(r) && SameFanouts(r, r')
    requires r'.cache.epoch == r.cache.epoch && r'.cache.latestReplace == r.cache.latestReplace
    requires r'.invalidatedAt == r.invalidatedAt
    ensures EpochsInOrder(r') && LatestReplacement(r')
  {
    assert forall j :: IsReplace(r', j) <==> IsReplace(r, j);
    if r.cache.latestReplace != r.invalidatedAt {
      var j :| IsReplace(r, j) && r.fanouts[j].counters.epoch == r.cache.latestReplace;
      assert IsReplace(r', j);
    }
  }

  lemma {:induction false} RespondKeepsEpochs<V>(r: Run<V>, k: nat, i: nat, result: Result<V>, merge: MergeFn<Page<V>>)
    requires Sound(r) && Enabled(r, Respond(k, i, result))
    ensures EpochsInOrder(Next(r, Respond(k, i, result), merge))
    ensures LatestReplacement(Next(r, Respond(k, i, result), merge))
  {
    SameKeepsEpochs(r, Next(r, Respond(k, i, result), merge));
  }

  lemma {:induction false} InvalidateKeepsEpochs<V>(r: Run<V>, merge: MergeFn<Page<V>>)
    requires Sound(r)
    ensures EpochsInOrder(Next(r, Invalidate, merge)) && LatestReplacement(Next(r, Invalidate, merge))
  {
    assert forall j :: IsReplace(Next(r, Invalidate, merge), j) <==> IsReplace(r, j);
  }

  /** Every action keeps both the cache and the counters sound. */
  lemma {:induction false} StepIsSound<V>(r: Run<V>, a: Action<V>, merge: MergeFn<Page<V>>)
    requires Sound(r) && Enabled(r, a)
    ensures Sound(Next(r, a, merge))
  {
    match a
    case Begin(mode, emit, servers) =>
      FreshBegin(r.cache, mode);
      BeginKeepsEpochs(r, mode, emit, servers, merge);
    case Respond(k, i, result) =>
      RespondKeepsCache(r, k, i, result, merge);
      RespondIsAccounted(r, k, i, result, merge);
      RespondKeepsEpochs(r, k, i, result, merge);
    case Read =>
      FreshEmitted(r.cache, merge);
      SameKeepsEpochs(r, Next(r, a, merge));
    case Invalidate =>
      InvalidateKeepsEpochs(r, merge);
  }

  ghost predicate IsTrace<V>(trace: seq<Run<V>>, actions: seq<Action<V>>, merge: MergeFn<Page<V>>) {
    && |trace| == |actions| + 1
    && trace[0] == Run(Cache(map[], 0, 0, None), [], 0, [])
    && forall i | 0 <= i < |actions| ::
         Enabled(trace[i], actions[i]) && trace[i + 1] == Next(trace[i], actions[i], merge)
  }

  /** Every reachable state is sound. */
  lemma {:induction false} TracesAreSound<V>(trace: seq<Run<V>>, actions: seq<Action<V>>, merge: MergeFn<Page<V>>,
                                             i: nat)
    requires IsTrace(trace, actions, merge) && i < |trace|
    ensures Sound(trace[i])
  {
    if i > 0 {
      TracesAreSound(trace, actions, merge, i - 1);
      StepIsSound(trace[i - 1], actions[i - 1], merge);
    }
  }

  // ----- which responses reach the cache -----

  ghost function DataAfter<V>(r: Run<V>, k: nat, i: nat, value: V, merge: MergeFn<Page<V>>): map<Text, Info<Page<V>>>
    requires Enabled(r, Respond(k, i, Ok(value)))
  {
    Next(r, Respond(k, i, Ok(value)), merge).cache.data
  }

  lemma {:induction false} DataIsUpdated<V>(r: Run<V>, k: nat, i: nat, value: V, merge: MergeFn<Page<V>>)
    requires Enabled(r, Respond(k, i, Ok(value)))
    ensures var f := r.fanouts[k].counters;
            DataAfter(r, k, i, value, merge)
            == Updated(r.cache, r.fanouts[k].servers[i], Page(value, f.epoch, f.mode), f.epoch, f.mode).data
  {
  }

  /** The fan-out began after every replace fan-out and after the last invalidation. */
  ghost predicate IsCurrent<V>(r: Run<V>, k: nat) {
    k < |r.fanouts| && r.invalidatedAt < r.fanouts[k].counters.epoch && forall j | IsReplace(r, j) :: j < k
  }

  lemma {:induction false} CurrentIsAfterReplacement<V>(r: Run<V>, k: nat)
    requires Sound(r) && k < |r.fanouts| && r.fanouts[k].counters.mode == Merge
    ensures IsCurrent(r, k) <==> r.fanouts[k].counters.epoch > r.cache.latestReplace
  {
    if r.cache.latestReplace != r.invalidatedAt {
      var j :| IsReplace(r, j) && r.fanouts[j].counters.epoch == r.cache.latestReplace;
      assert j != k;
    }
  }

  /** A merge response is added, behind the other pages of its server, exactly when its fan-out began after every
      replace fan-out and every invalidation so far. Otherwise it changes nothing. */
  lemma {:induction false} MergeAddedIff<V>(r: Run<V>, k: nat, i: nat, value: V, merge: MergeFn<Page<V>>)
    requires Sound(r) && Enabled(r, Respond(k, i, Ok(value))) && r.fanouts[k].counters.mode == Merge
    ensures var server := r.fanouts[k].servers[i];
            InfoOf(DataAfter(r, k, i, value, merge), server).pages
            == InfoOf(r.cache.data, server).pages
               + (if IsCurrent(r, k) then [Page(value, r.fanouts[k].counters.epoch, Merge)] else [])
    ensures forall s | s != r.fanouts[k].servers[i] || !IsCurrent(r, k) ::
              InfoOf(DataAfter(r, k, i, value, merge), s) == InfoOf(r.cache.data, s)
  {
    DataIsUpdated(r, k, i, value, merge);
    CurrentIsAfterReplacement(r, k);
  }

  /** A replace response evicts the older pages of its server exactly when none of the cached ones comes from its own
      or a later fan-out. Otherwise it is dropped and the older pages stay. */
  lemma {:induction false} ReplaceEvictsIff<V>(r: Run<V>, k: nat, i: nat, value: V, merge: MergeFn<Page<V>>)
    requires Sound(r) && Enabled(r, Respond(k, i, Ok(value))) && r.fanouts[k].counters.mode == Replace
    ensures var f, server := r.fanouts[k].counters, r.fanouts[k].servers[i];
            InfoOf(DataAfter(r, k, i, value, merge), server).pages
            == if forall p | p in InfoOf(r.cache.data, server).pages :: p.epoch < f.epoch
               then [Page(value, f.epoch, Replace)]
               else InfoOf(r.cache.data, server).pages
    ensures forall s | s != r.fanouts[k].servers[i] ::
              InfoOf(DataAfter(r, k, i, value, merge), s) == InfoOf(r.cache.data, s)
  {
    DataIsUpdated(r, k, i, value, merge);
    var server := r.fanouts[k].servers[i];
    if server in r.cache.data {
      assert Fresh(r.cache.data[server], r.cache);
    }
  }

  /** Right after an invalidation, a response that was already in flight is discarded exactly when it is a merge
      response. */
  lemma {:induction false} InvalidationDiscardsIff<V>(r: Run<V>, k: nat, i: nat, value: V, merge: MergeFn<Page<V>>)
    requires Sound(r) && Enabled(r, Respond(k, i, Ok(value)))
    ensures DataAfter(Next(r, Invalidate, merge), k, i, value, merge) == map[] <==> r.fanouts[k].counters.mode == Merge
  {
    var q := Next(r, Invalidate, merge);
    DataIsUpdated(q, k, i, value, merge);
    assert q.fanouts == r.fanouts && 0 < r.fanouts[k].counters.epoch <= r.cache.epoch;
  }
}
