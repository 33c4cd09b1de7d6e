/** What a subscriber and the cache can rely on over whole runs, and a way in which a stale page survives. */
module QueryTheorems {
  import opened Primitives
  import opened QueryCache
  import opened QueryRuns
  import Sync

  // ----- the closing task -----

  ghost function UpTo(n: nat): (s: set<nat>)
    ensures forall j: nat :: j in s <==> j < n
  {
    if n == 0 then {} else UpTo(n - 1) + {n - 1}
  }

  lemma {:induction false} UpToSize(n: nat)
    ensures |UpTo(n)| == n
  {
    if n > 0 {
      UpToSize(n - 1);
      var front := UpTo(n - 1);
      assert n - 1 !in front && UpTo(n) == front + {n - 1};
    }
  }

  lemma {:induction false} SubsetOfSameSize<T>(a: set<T>, b: set<T>)
    requires a <= b
    ensures |a| <= |b| && (|a| == |b| ==> a == b)
  {
    if x :| x in a {
      SubsetOfSameSize(a - {x}, b - {x});
    }
  }

  /** Nothing is pending exactly when every task has reported: the count cannot run below zero. */
  lemma {:induction false} PendingUntilAllReport<V>(f: Running<V>)
    requires Accounted(f)
    ensures f.counters.pending == 0 <==> forall i: nat | i < |f.servers| :: i in f.finished
  {
    var n := |f.servers|;
    UpToSize(n);
    var all := UpTo(n);
    SubsetOfSameSize(f.finished, all);
    if forall i: nat | i < n :: i in f.finished {
      assert f.finished == all;
    }
  }

  ghost predicate ClosesWith<V>(f: Running<V>, data: Option<Page<V>>) {
    f.snapshots != [] && f.snapshots[|f.snapshots| - 1].data == data
  }

  /** The task that finds itself to be the last is the one after which all have reported, and its snapshot merges
      the cache with every result recorded. In the settled mode it is the only snapshot of the fan-out. */
  lemma {:induction false} ClosingSnapshot<V>(r: Run<V>, k: nat, i: nat, result: Result<V>, merge: MergeFn<Page<V>>)
    requires Sound(r) && Enabled(r, Respond(k, i, result))
    ensures var f := Next(r, Respond(k, i, result), merge).fanouts[k];
            f.closings == if forall j: nat | j < |f.servers| :: j in f.finished then 1 else 0
    ensures var r' := Next(r, Respond(k, i, result), merge);
            r'.fanouts[k].closings == 1 ==>
              ClosesWith(r'.fanouts[k], Merged(r'.cache.(emitted := r.cache.emitted), merge))
    ensures var f := Next(r, Respond(k, i, result), merge).fanouts[k];
            f.counters.emit == Settled ==> |f.snapshots| == f.closings
  {
    StepIsSound(r, Respond(k, i, result), merge);
    var r' := Next(r, Respond(k, i, result), merge);
    assert Accounted(r'.fanouts[k]);
    PendingUntilAllReport(r'.fanouts[k]);
  }

  // ----- replace fan-outs only -----

  /** The cache that a log of replace responses leaves. */
  function Replaced<V>(log: seq<Delivery<V>>): map<Text, Info<Page<V>>> {
    if log == [] then map[]
    else
      var data, d := Replaced(log[..|log| - 1]), log[|log| - 1];
      data[d.server := UpdatedInfo(InfoOf(data, d.server), d.page, d.page.epoch, Replace)]
  }

  ghost predicate IsNewest<V>(log: seq<Delivery<V>>, d: Delivery<V>) {
    d in log && forall e | e in log && e.server == d.server :: e.page.epoch <= d.page.epoch
  }

  ghost predicate HoldsNewest<V(!new)>(log: seq<Delivery<V>>, server: Text, info: Info<Page<V>>) {
    exists d :: IsNewest(log, d) && d.server == server && info == Info([d.page], d.page.epoch)
  }

  /** Each server's page is its response of the highest epoch, whatever the order of arrival. */
  lemma {:induction false} ReplacedIsNewest<V(!new)>(log: seq<Delivery<V>>, server: Text)
    requires forall d | d in log :: d.page.epoch > 0
    ensures server in Replaced(log) <==> exists d :: d in log && d.server == server
    ensures server in Replaced(log) ==> HoldsNewest(log, server, Replaced(log)[server])
    decreases |log|
  {
    if log != [] {
      var front, last := log[..|log| - 1], log[|log| - 1];
      assert forall d :: d in log <==> d in front || d == last by { assert log == front + [last]; }
      ReplacedIsNewest(front, server);
      if server in Replaced(front) {
        var d :| IsNewest(front, d) && d.server == server && Replaced(front)[server] == Info([d.page], d.page.epoch);
        if last.server == server && last.page.epoch > d.page.epoch {
          assert IsNewest(log, last);
        } else {
          assert IsNewest(log, d);
        }
      } else if last.server == server {
        assert IsNewest(log, last);
      }
    }
  }

  /** No server answers the same fan-out twice. */
  ghost predicate AnsweredOnce<V>(log: seq<Delivery<V>>) {
    forall d, e | d in log && e in log && d.server == e.server && d.page.epoch == e.page.epoch :: d == e
  }

  /** Two orders of arrival of the same responses leave the same cache, hence the same pages to merge. */
  lemma {:induction false} ReplaceConfluence<V(!new)>(a: seq<Delivery<V>>, b: seq<Delivery<V>>)
    requires forall d :: d in a <==> d in b
    requires AnsweredOnce(a) && forall d | d in a :: d.page.epoch > 0
    ensures Replaced(a) == Replaced(b)
    ensures AllPages(Replaced(a)) == AllPages(Replaced(b))
  {
    forall server ensures server in Replaced(a) <==> server in Replaced(b) {
      ReplacedIsNewest(a, server);
      ReplacedIsNewest(b, server);
    }
    forall server | server in Replaced(a) ensures Replaced(a)[server] == Replaced(b)[server] {
      ReplacedIsNewest(a, server);
      ReplacedIsNewest(b, server);
      var d :| IsNewest(a, d) && d.server == server && Replaced(a)[server] == Info([d.page], d.page.epoch);
      var e :| IsNewest(b, e) && e.server == server && Replaced(b)[server] == Info([e.page], e.page.epoch);
      assert d == e;
    }
  }

  /** The run began replace fan-outs only, each over distinct servers. */
  ghost predicate ReplaceOnly<V>(r: Run<V>) {
    forall k | 0 <= k < |r.fanouts| :: r.fanouts[k].counters.mode == Replace && Sync.Distinct(r.fanouts[k].servers)
  }

  ghost predicate CameFrom<V>(r: Run<V>, d: Delivery<V>, k: nat, i: nat) {
    && k < |r.fanouts| && i < |r.fanouts[k].servers|
    && i in r.fanouts[k].finished && d.server == r.fanouts[k].servers[i] && d.page.epoch == r.fanouts[k].counters.epoch
  }

  /** The log explains the cache, and every delivery in it came from a task of its own. */
  ghost predicate Logged<V>(r: Run<V>) {
    && r.cache.data == Replaced(r.log)
    && (forall d | d in r.log :: d.page.epoch > 0 && exists k, i :: CameFrom(r, d, k, i))
    && AnsweredOnce(r.log)
  }

  /** A task that has not reported yet has no delivery in the log. */
  lemma {:induction false} NotYetDelivered<V>(r: Run<V>, k: nat, i: nat, d: Delivery<V>)
    requires EpochsInOrder(r) && ReplaceOnly(r) && Logged(r) && d in r.log
    requires k < |r.fanouts| && i < |r.fanouts[k].servers| && i !in r.fanouts[k].finished
    ensures !(d.server == r.fanouts[k].servers[i] && d.page.epoch == r.fanouts[k].counters.epoch)
  {
    var k', i' :| CameFrom(r, d, k', i');
    if d.page.epoch == r.fanouts[k].counters.epoch {
      assert k' == k && i' != i;
    }
  }

  lemma {:induction false} StillCameFrom<V>(r: Run<V>, k: nat, i: nat, result: Result<V>, merge: MergeFn<Page<V>>,
                                            d: Delivery<V>)
    requires Enabled(r, Respond(k, i, result)) && (exists k', i' :: CameFrom(r, d, k', i'))
    ensures exists k', i' :: CameFrom(Next(r, Respond(k, i, result), merge), d, k', i')
  {
    var k', i' :| CameFrom(r, d, k', i');
    assert CameFrom(Next(r, Respond(k, i, result), merge), d, k', i');
  }

  function Added<V>(r: Run<V>, k: nat, i: nat, value: V): Delivery<V>
    requires k < |r.fanouts| && i < |r.fanouts[k].servers|
  {
    Delivery(r.fanouts[k].servers[i], Page(value, r.fanouts[k].counters.epoch, r.fanouts[k].counters.mode))
  }

  lemma {:induction false} LogGrows<V>(r: Run<V>, k: nat, i: nat, value: V, merge: MergeFn<Page<V>>)
    requires Enabled(r, Respond(k, i, Ok(value))) && r.fanouts[k].counters.mode == Replace
    requires r.cache.data == Replaced(r.log)
    ensures Next(r, Respond(k, i, Ok(value)), merge).log == r.log + [Added(r, k, i, value)]
    ensures DataAfter(r, k, i, value, merge) == Replaced(r.log + [Added(r, k, i, value)])
    ensures CameFrom(Next(r, Respond(k, i, Ok(value)), merge), Added(r, k, i, value), k, i)
  {
    DataIsUpdated(r, k, i, value, merge);
    assert (r.log + [Added(r, k, i, value)])[..|r.log|] == r.log;
  }

  lemma {:induction false} RespondIsLogged<V>(r: Run<V>, k: nat, i: nat, value: V, merge: MergeFn<Page<V>>)
    requires EpochsInOrder(r) && ReplaceOnly(r) && Logged(r) && Enabled(r, Respond(k, i, Ok(value)))
    ensures Logged(Next(r, Respond(k, i, Ok(value)), merge))
  {
    var added := Added(r, k, i, value);
    LogGrows(r, k, i, value, merge);
    forall d | d in r.log
      ensures exists k', i' :: CameFrom(Next(r, Respond(k, i, Ok(value)), merge), d, k', i')
      ensures !(d.server == added.server && d.page.epoch == added.page.epoch)
    {
      NotYetDelivered(r, k, i, d);
      StillCameFrom(r, k, i, Ok(value), merge, d);
    }
    assert forall d | d in r.log + [added] :: d == added || d in r.log;
  }

  lemma {:induction false} FailureIsLogged<V>(r: Run<V>, k: nat, i: nat, merge: MergeFn<Page<V>>)
    requires Sound(r) && ReplaceOnly(r) && Logged(r) && Enabled(r, Respond(k, i, Err))
    ensures Logged(Next(r, Respond(k, i, Err), merge))
  {
    forall d | d in r.log ensures exists k', i' :: CameFrom(Next(r, Respond(k, i, Err), merge), d, k', i') {
      StillCameFrom(r, k, i, Err, merge, d);
    }
  }

  lemma {:induction false} BeginIsLogged<V>(r: Run<V>, a: Action<V>, merge: MergeFn<Page<V>>)
    requires Sound(r) && Logged(r) && Enabled(r, a) && !a.Respond?
    ensures Logged(Next(r, a, merge))
  {
    var r' := Next(r, a, merge);
    forall d | d in r'.log ensures exists k, i :: CameFrom(r', d, k, i) {
      var k', i' :| CameFrom(r, d, k', i');
      assert CameFrom(r', d, k', i');
    }
  }

  /** In every run of replace fan-outs over distinct servers, the cached page of each server is its response of the
      highest epoch among those delivered since the last invalidation. */
  lemma {:induction false} ReplaceRunsHoldNewest<V(!new)>(trace: seq<Run<V>>, actions: seq<Action<V>>,
                                                          merge: MergeFn<Page<V>>, n: nat, server: Text)
    requires IsTrace(trace, actions, merge) && n < |trace| && ReplaceOnly(trace[n])
    ensures Logged(trace[n])
    ensures server in trace[n].cache.data <==> exists d :: d in trace[n].log && d.server == server
    ensures server in trace[n].cache.data ==> HoldsNewest(trace[n].log, server, trace[n].cache.data[server])
  {
    ReplaceRunsAreLogged(trace, actions, merge, n);
    ReplacedIsNewest(trace[n].log, server);
  }

  lemma {:induction false} ReplaceRunsAreLogged<V>(trace: seq<Run<V>>, actions: seq<Action<V>>, merge: MergeFn<Page<V>>,
                                                   n: nat)
    requires IsTrace(trace, actions, merge) && n < |trace| && ReplaceOnly(trace[n])
    ensures Logged(trace[n])
  {
    if n > 0 {
      var r, a := trace[n - 1], actions[n - 1];
      FewerFanouts(r, a, merge);
      ReplaceRunsAreLogged(trace, actions, merge, n - 1);
      TracesAreSound(trace, actions, merge, n - 1);
      match a
      case Respond(k, i, Ok(value)) => RespondIsLogged(r, k, i, value, merge);
      case Respond(k, i, Err) => FailureIsLogged(r, k, i, merge);
      case _ => BeginIsLogged(r, a, merge);
    }
  }

  lemma {:induction false} FewerFanouts<V>(r: Run<V>, a: Action<V>, merge: MergeFn<Page<V>>)
    requires Enabled(r, a) && ReplaceOnly(Next(r, a, merge))
    ensures ReplaceOnly(r)
  {
    var r' := Next(r, a, merge);
    forall k | 0 <= k < |r.fanouts|
      ensures r.fanouts[k].counters.mode == Replace && Sync.Distinct(r.fanouts[k].servers)
    {
      assert r'.fanouts[k].counters.mode == r.fanouts[k].counters.mode && r'.fanouts[k].servers == r.fanouts[k].servers;
    }
  }

  // ----- stale pages that survive -----

  /** A merge fan-out, a replace fan-out and another merge fan-out over one server; the last answers before the
      second. */
  function Overtaken<V>(server: Text, v1: V, v2: V, v3: V): seq<Action<V>> {
    [Begin(Merge, Settled, [server]), Respond(0, 0, Ok(v1)), Begin(Replace, Settled, [server]),
     Begin(Merge, Settled, [server]), Respond(2, 0, Ok(v3)), Respond(1, 0, Ok(v2))]
  }

  /** What a successful response changes in the cache: the data. */
  lemma {:induction false} ResponseStep<V>(r: Run<V>, k: nat, value: V, server: Text, f: Fanout,
                                           merge: MergeFn<Page<V>>)
    requires Enabled(r, Respond(k, 0, Ok(value)))
    requires r.fanouts[k].counters == f && r.fanouts[k].servers == [server]
    ensures var r' := Next(r, Respond(k, 0, Ok(value)), merge);
            && r'.cache.epoch == r.cache.epoch && r'.cache.latestReplace == r.cache.latestReplace
            && |r'.fanouts| == |r.fanouts|
            && r'.cache.data == Updated(r.cache, server, Page(value, f.epoch, f.mode), f.epoch, f.mode).data
            && forall j | 0 <= j < |r.fanouts| && j != k :: r'.fanouts[j] == r.fanouts[j]
  {
    DataIsUpdated(r, k, 0, value, merge);
  }

  lemma {:induction false} BeginStep<V>(r: Run<V>, mode: UpdateMode, server: Text, merge: MergeFn<Page<V>>)
    ensures var r' := Next(r, Begin(mode, Settled, [server]), merge);
            && r'.cache == Begun(r.cache, mode)
            && r'.fanouts
               == r.fanouts + [Running([server], Fanout(r.cache.epoch + 1, mode, Settled, 1, 0), {}, {}, 0, [])]
  {
  }

  /** Three fan-outs have begun, and the first has been answered. */
  ghost predicate ThreeBegun<V>(r: Run<V>, server: Text, v1: V) {
    && |r.fanouts| == 3 && (forall k | 0 <= k < 3 :: r.fanouts[k].servers == [server])
    && r.fanouts[1].counters == Fanout(2, Replace, Settled, 1, 0)
    && r.fanouts[2].counters == Fanout(3, Merge, Settled, 1, 0)
    && r.cache.latestReplace == 2 && InfoOf(r.cache.data, server) == Info([Page(v1, 1, Merge)], 1)
  }

  /** The first of them, answered. */
  ghost predicate OneAnswered<V>(r: Run<V>, server: Text, v1: V) {
    && |r.fanouts| == 1 && r.fanouts[0].servers == [server]
    && r.cache.epoch == 1 && r.cache.latestReplace == 0
    && InfoOf(r.cache.data, server) == Info([Page(v1, 1, Merge)], 1)
  }

  lemma {:induction false} AnswerOne<V>(server: Text, v1: V, v2: V, v3: V, trace: seq<Run<V>>, merge: MergeFn<Page<V>>)
    requires IsTrace(trace, Overtaken(server, v1, v2, v3), merge)
    ensures OneAnswered(trace[2], server, v1)
  {
    var actions := Overtaken(server, v1, v2, v3);
    assert trace[1] == Next(trace[0], actions[0], merge) && trace[2] == Next(trace[1], actions[1], merge);
    BeginStep(trace[0], Merge, server, merge);
    ResponseStep(trace[1], 0, v1, server, Fanout(1, Merge, Settled, 1, 0), merge);
    RespondKeepsEpoch(trace[1], 0, v1, merge);
  }

  lemma {:induction false} RespondKeepsEpoch<V>(r: Run<V>, k: nat, value: V, merge: MergeFn<Page<V>>)
    requires Enabled(r, Respond(k, 0, Ok(value)))
    ensures Next(r, Respond(k, 0, Ok(value)), merge).cache.epoch == r.cache.epoch
  {
  }

  lemma {:induction false} BeginThree<V>(server: Text, v1: V, v2: V, v3: V, trace: seq<Run<V>>, merge: MergeFn<Page<V>>)
    requires IsTrace(trace, Overtaken(server, v1, v2, v3), merge)
    ensures ThreeBegun(trace[4], server, v1)
  {
    AnswerOne(server, v1, v2, v3, trace, merge);
    var actions := Overtaken(server, v1, v2, v3);
    assert trace[3] == Next(trace[2], actions[2], merge) && trace[4] == Next(trace[3], actions[3], merge);
    BeginStep(trace[2], Replace, server, merge);
    BeginStep(trace[3], Merge, server, merge);
  }

  /** The replace response is dropped, and a page older than the replace fan-out stays in the cache. */
  lemma {:induction false} OlderPageSurvives<V>(server: Text, v1: V, v2: V, v3: V, trace: seq<Run<V>>,
                                                merge: MergeFn<Page<V>>)
    requires IsTrace(trace, Overtaken(server, v1, v2, v3), merge)
    ensures InfoOf(trace[6].cache.data, server).pages == [Page(v1, 1, Merge), Page(v3, 3, Merge)]
    ensures trace[6].cache.latestReplace == 2
  {
    BeginThree(server, v1, v2, v3, trace, merge);
    var actions := Overtaken(server, v1, v2, v3);
    assert trace[5] == Next(trace[4], actions[4], merge) && trace[6] == Next(trace[5], actions[5], merge);
    ResponseStep(trace[4], 2, v3, server, Fanout(3, Merge, Settled, 1, 0), merge);
    ResponseStep(trace[5], 1, v2, server, Fanout(2, Replace, Settled, 1, 0), merge);
  }
}
