/**
 The cache of a fan-out query: the pages each server has answered with, the epochs that
 tell late responses from current ones, and the counters a fan-out's tasks share.
 */
module QueryCache {
  import opened Primitives
  import opened Ordering
  import Sync

  datatype UpdateMode = Replace | Merge

  /** `Settled` publishes once per fan-out, `Eager` after every response. */
  datatype EmitMode = Settled | Eager

  datatype Status = Loading | Success | Failure

  datatype QueryResult<+T> = QueryResult(data: Option<T>, status: Status, successfulServers: nat, pendingServers: nat)

  type MergeFn<!T> = (seq<T>, Option<T>) -> T

  // ----- the cache as a value -----

  /** A server's pages, newest last. */
  datatype Info<+T> = Info(pages: seq<T>, epoch: nat)

  datatype Cache<+T> = Cache(data: map<Text, Info<T>>, epoch: nat, latestReplace: nat, emitted: Option<T>)

  function UpdatedInfo<T>(info: Info<T>, response: T, epoch: nat, mode: UpdateMode): Info<T> {
    match mode
    case Replace => if info.epoch >= epoch then info else Info([response], epoch)
    case Merge => Info(info.pages + [response], if info.epoch >= epoch then info.epoch else epoch)
  }

  function InfoOf<T>(data: map<Text, Info<T>>, server: Text): Info<T> {
    if server in data then data[server] else Info([], 0)
  }

  function Updated<T>(c: Cache<T>, server: Text, response: T, epoch: nat, mode: UpdateMode): Cache<T> {
    if mode == Merge && c.latestReplace > epoch then c
    else c.(data := c.data[server := UpdatedInfo(InfoOf(c.data, server), response, epoch, mode)])
  }

  /** The cache once a fan-out has begun; its epoch is the new `epoch`. */
  function Begun<T>(c: Cache<T>, mode: UpdateMode): Cache<T> {
    c.(epoch := c.epoch + 1, latestReplace := if mode == Replace then c.epoch + 1 else c.latestReplace)
  }

  function Invalidated<T>(c: Cache<T>): Cache<T> {
    Begun(c.(data := map[], emitted := None), Replace)
  }

  function StatusOf<T>(c: Cache<T>, pending: nat): Status {
    if pending != 0 then Loading else if |c.data| == 0 then Failure else Success
  }

  // ----- merging -----

  function CompareText(a: Text, b: Text): Ordering {
    CompareSeq(a, b)
  }

  lemma {:induction false} TextsOrdered()
    ensures TotalOrder(CompareText)
  {
    forall a: Text, b: Text { CompareSeqOrder(a, b, b); }
    forall a: Text, b: Text, c: Text { CompareSeqOrder(a, b, c); }
  }

  /** The servers of the cache in ascending order. */
  ghost predicate InServerOrder<T>(servers: seq<Text>, data: map<Text, Info<T>>) {
    Ascending(CompareText, servers) && forall s :: s in servers <==> s in data
  }

  /** There is only one such order, so nothing below depends on the iteration order of the map. */
  lemma {:induction false} ServerOrderUnique<T>(a: seq<Text>, b: seq<Text>, data: map<Text, Info<T>>)
    requires InServerOrder(a, data) && InServerOrder(b, data)
    ensures a == b
  {
    TextsOrdered();
    AscendingUnique(CompareText, a, b);
  }

  lemma {:induction false} SortedIsAscending(order: seq<Text>, s: seq<Text>)
    requires Sync.Distinct(order) && s == SortBy(CompareText, order)
    ensures Ascending(CompareText, s)
    ensures forall x :: x in s <==> x in order
  {
    TextsOrdered();
    SortBySorts(CompareText, order);
    forall x ensures x in s <==> x in order {
      assert x in multiset(s) <==> x in multiset(order);
    }
    forall i, j | 0 <= i < j < |s| ensures CompareText(s[i], s[j]) == Less {
      DistinctOnce(order, s[i]);
      OnceDistinct(s, i, j);
      CompareSeqOrder(s[i], s[j], s[j]);
    }
  }

  lemma {:induction false} DistinctOnce<X>(s: seq<X>, x: X)
    requires Sync.Distinct(s)
    ensures multiset(s)[x] <= 1
  {
    if s != [] {
      var front := s[..|s| - 1];
      assert s == front + [s[|s| - 1]];
      DistinctOnce(front, x);
      assert x == s[|s| - 1] ==> x !in multiset(front);
    }
  }

  lemma {:induction false} OnceDistinct<X>(s: seq<X>, i: nat, j: nat)
    requires i < j < |s| && multiset(s)[s[i]] <= 1
    ensures s[i] != s[j]
  {
    assert s == s[..j] + s[j..];
    assert s[..j][i] == s[i] && s[j..][0] == s[j];
    assert s[i] in multiset(s[..j]) && s[j] in multiset(s[j..]);
    assert multiset(s)[s[i]] == multiset(s[..j])[s[i]] + multiset(s[j..])[s[i]];
  }

  ghost function ServerOrder<T>(data: map<Text, Info<T>>): (servers: seq<Text>)
    ensures InServerOrder(servers, data)
  {
    ServerOrderExists(data);
    var servers :| InServerOrder(servers, data);
    servers
  }

  lemma {:induction false} ServerOrderExists<T>(data: map<Text, Info<T>>)
    ensures exists servers :: InServerOrder(servers, data)
  {
    var order := Listing(data.Keys);
    SortedIsAscending(order, SortBy(CompareText, order));
    assert InServerOrder(SortBy(CompareText, order), data);
  }

  ghost function Listing<X(!new)>(s: set<X>): (order: seq<X>)
    ensures Sync.Distinct(order)
    ensures forall x :: x in order <==> x in s
  {
    if s == {} then []
    else
      var x :| x in s;
      Listing(s - {x}) + [x]
  }

  function PagesOf<T>(data: map<Text, Info<T>>, servers: seq<Text>): seq<T>
    requires forall s | s in servers :: s in data
  {
    if servers == [] then []
    else
      var last := servers[|servers| - 1];
      assert last in servers;
      PagesOf(data, servers[..|servers| - 1]) + data[last].pages
  }

  /** How many pages the first `n` servers have. */
  function Offset<T>(data: map<Text, Info<T>>, servers: seq<Text>, n: nat): nat
    requires n <= |servers| && forall s | s in servers :: s in data
  {
    if n == 0 then 0 else Offset(data, servers, n - 1) + |data[servers[n - 1]].pages|
  }

  /** The pages of each server stand together and in order, after those of the servers before, and there are no
      others. */
  lemma {:induction false} PagesStandTogether<T>(data: map<Text, Info<T>>, servers: seq<Text>, i: nat)
    requires i < |servers| && forall s | s in servers :: s in data
    ensures |PagesOf(data, servers)| == Offset(data, servers, |servers|)
    ensures Offset(data, servers, i) + |data[servers[i]].pages| <= Offset(data, servers, |servers|)
    ensures PagesOf(data, servers)[Offset(data, servers, i)..][..|data[servers[i]].pages|] == data[servers[i]].pages
    decreases |servers|
  {
    var n := |servers| - 1;
    var front, last := servers[..n], servers[n];
    PagesCount(data, servers);
    PagesCount(data, front);
    OffsetOfFront(data, servers, n);
    if i < n {
      OffsetOfFront(data, servers, i);
      PagesStandTogether(data, front, i);
      var pages, k := PagesOf(data, front), |data[servers[i]].pages|;
      assert (pages + data[last].pages)[Offset(data, servers, i)..][..k] == pages[Offset(data, servers, i)..][..k];
    }
  }

  lemma {:induction false} OffsetOfFront<T>(data: map<Text, Info<T>>, servers: seq<Text>, n: nat)
    requires n < |servers| && forall s | s in servers :: s in data
    ensures Offset(data, servers[..|servers| - 1], n) == Offset(data, servers, n)
  {
    if n > 0 {
      OffsetOfFront(data, servers, n - 1);
    }
  }

  lemma {:induction false} PagesCount<T>(data: map<Text, Info<T>>, servers: seq<Text>)
    requires forall s | s in servers :: s in data
    ensures |PagesOf(data, servers)| == Offset(data, servers, |servers|)
    decreases |servers|
  {
    if servers != [] {
      PagesCount(data, servers[..|servers| - 1]);
      OffsetOfFront(data, servers, |servers| - 1);
    }
  }

  /** Every cached page, server by server. */
  ghost function AllPages<T>(data: map<Text, Info<T>>): seq<T> {
    PagesOf(data, ServerOrder(data))
  }

  ghost function Merged<T>(c: Cache<T>, merge: MergeFn<T>): Option<T> {
    if |c.data| == 0 then None else Some(merge(AllPages(c.data), c.emitted))
  }

  ghost function Emitted<T>(c: Cache<T>, merge: MergeFn<T>): Cache<T> {
    if |c.data| == 0 then c else c.(emitted := Merged(c, merge))
  }

  // ----- a fan-out as a value -----

  datatype Fanout = Fanout(epoch: nat, mode: UpdateMode, emit: EmitMode, pending: nat, successful: nat)

  /** The effect of one task's critical section: the new cache, the new counters and the snapshot to publish. */
  ghost function Reported<T>(c: Cache<T>, f: Fanout, server: Text, result: Result<T>, merge: MergeFn<T>)
    : (r: (Cache<T>, Fanout, Option<QueryResult<T>>))
    requires f.pending > 0
  {
    var f' := f.(pending := f.pending - 1, successful := if result.Ok? then f.successful + 1 else f.successful);
    var c' := if result.Ok? then Updated(c, server, result.value, f.epoch, f.mode) else c;
    if f.emit == Settled && f'.pending != 0 then (c', f', None)
    else (Emitted(c', merge), f',
          Some(QueryResult(Merged(c', merge), StatusOf(c', f'.pending), f'.successful, f'.pending)))
  }

  /** The status of a published snapshot: loading exactly while tasks are pending; afterwards a success if and only if
      there is data to show, which is so if and only if some server's response is cached. */
  lemma {:induction false} StatusMeaning<T>(c: Cache<T>, f: Fanout, server: Text, result: Result<T>, merge: MergeFn<T>)
    requires f.pending > 0 && Reported(c, f, server, result, merge).2.Some?
    ensures var (c', f', snapshot) := Reported(c, f, server, result, merge);
            && (snapshot.value.status == Loading <==> f.pending > 1)
            && (snapshot.value.status == Success <==> f.pending == 1 && snapshot.value.data.Some?)
            && (snapshot.value.status == Failure <==> f.pending == 1 && snapshot.value.data.None?)
            && (snapshot.value.data.Some? <==> exists s :: s in c'.data)
  {
    var c' := Reported(c, f, server, result, merge).0;
    if s :| s in c'.data {
      assert c'.data.Keys != {};
    } else {
      assert c'.data.Keys == {};
    }
  }

  /** What is emitted is remembered, and the next merge receives it together with all pages in server order. */
  lemma {:induction false} EmissionFeedsBack<T>(c: Cache<T>, f: Fanout, server: Text, result: Result<T>, g: Fanout,
                                                server': Text, result': Result<T>, merge: MergeFn<T>)
    requires f.pending > 0 && Reported(c, f, server, result, merge).2.Some?
    requires Reported(c, f, server, result, merge).2.value.data.Some?
    requires g.pending > 0 && Reported(Reported(c, f, server, result, merge).0, g, server', result', merge).2.Some?
    ensures var (c', f', first) := Reported(c, f, server, result, merge);
            var (c'', g', second) := Reported(c', g, server', result', merge);
            second.value.data == Some(merge(AllPages(c''.data), first.value.data))
  {
    var (c', f', first) := Reported(c, f, server, result, merge);
    assert c'.emitted == first.value.data;
    assert |c'.data| > 0;
    if result'.Ok? {
      UpdateKeepsServers(c', server', result'.value, g.epoch, g.mode);
    }
  }

  lemma {:induction false} InvalidatedTakes<T>(c: Cache<T>, server: Text, value: T, epoch: nat, mode: UpdateMode)
    requires epoch > 0 && (mode == Replace || epoch > c.epoch)
    ensures var after := Updated(Invalidated(c), server, value, epoch, mode);
            after.data == map[server := Info([value], epoch)] && after.emitted == None
  {
    assert InfoOf(Invalidated(c).data, server) == Info([], 0);
    assert [] + [value] == [value];
    assert UpdatedInfo(Info([], 0), value, epoch, mode) == Info([value], epoch);
  }

  /** After an invalidation nothing is cached or remembered: the first response starts a page of its own, and it is
      merged without a previous value. Only a response of the invalidated fan-outs that replaces gets in. */
  lemma {:induction false} InvalidatedStartsAfresh<T>(c: Cache<T>, f: Fanout, server: Text, value: T, merge: MergeFn<T>)
    requires f.pending > 0 && f.epoch > 0 && (f.mode == Replace || f.epoch > c.epoch)
    requires Reported(Invalidated(c), f, server, Ok(value), merge).2.Some?
    ensures Reported(Invalidated(c), f, server, Ok(value), merge).2.value.data == Some(merge([value], None))
    ensures Invalidated(c).data == map[] && Invalidated(c).epoch == c.epoch + 1
  {
    var data := map[server := Info([value], f.epoch)];
    InvalidatedTakes(c, server, value, f.epoch, f.mode);
    OnePage(data, server, value);
    assert server in data.Keys;
    assert Reported(Invalidated(c), f, server, Ok(value), merge).2.value.data
        == Merged(Updated(Invalidated(c), server, value, f.epoch, f.mode), merge);
  }

  lemma {:induction false} OnePage<T>(data: map<Text, Info<T>>, server: Text, value: T)
    requires data.Keys == {server} && data[server].pages == [value]
    ensures AllPages(data) == [value]
  {
    ServerOrderUnique(ServerOrder(data), [server], data);
    var order := ServerOrder(data);
    assert order[..|order| - 1] == [];
    assert PagesOf(data, []) == [];
    assert PagesOf(data, order) == PagesOf(data, order[..|order| - 1]) + data[order[|order| - 1]].pages;
  }

  lemma {:induction false} UpdateKeepsServers<T>(c: Cache<T>, server: Text, response: T, epoch: nat, mode: UpdateMode)
    requires |c.data| > 0
    ensures |Updated(c, server, response, epoch, mode).data| > 0
    ensures Updated(c, server, response, epoch, mode).emitted == c.emitted
  {
    var d := Updated(c, server, response, epoch, mode).data;
    var s :| s in c.data;
    assert s in d.Keys;
  }

  // ----- the cache and the fan-out as shared state -----

  class QueryState<T> {
    var data: map<Text, Info<T>>
    var epoch: nat
    var latestReplaceEpoch: nat
    var emitted: Option<T>

    ghost function Value(): Cache<T>
      reads this
    {
      Cache(data, epoch, latestReplaceEpoch, emitted)
    }

    constructor ()
      ensures Value() == Cache(map[], 0, 0, None)
    {
      data, epoch, latestReplaceEpoch, emitted := map[], 0, 0, None;
    }

    method NextFanout(mode: UpdateMode) returns (e: nat)
      modifies this
      ensures Value() == Begun(old(Value()), mode)
      ensures e == epoch
    {
      epoch := epoch + 1;
      if mode == Replace {
        latestReplaceEpoch := epoch;
      }
      e := epoch;
    }

    method Update(server: Text, value: T, epoch: nat, mode: UpdateMode)
      modifies this`data
      ensures Value() == Updated(old(Value()), server, value, epoch, mode)
    {
      if mode == Merge && latestReplaceEpoch > epoch {
        return;
      }
      var info := InfoOf(data, server);
      match mode {
        case Replace =>
          // Only responses of a newer fan-out replace.
          if info.epoch < epoch {
            info := Info([value], epoch);
          }
        case Merge =>
          info := Info(info.pages + [value], if info.epoch >= epoch then info.epoch else epoch);
      }
      data := data[server := info];
    }

    /** Reduce every cached page into one value; nothing when no server has responded. */
    method ComputeMerged(merge: MergeFn<T>) returns (merged: Option<T>)
      ensures merged == Merged(Value(), merge)
    {
      if |data| == 0 {
        return None;
      }
      var order := Sync.Enumerate(data.Keys);
      var servers := SortBy(CompareText, order);
      SortedIsAscending(order, servers);
      ServerOrderUnique(servers, ServerOrder(data), data);
      var pages := CollectPages(servers);
      merged := Some(merge(pages, emitted));
    }

    method CollectPages(servers: seq<Text>) returns (pages: seq<T>)
      requires forall s | s in servers :: s in data
      ensures pages == PagesOf(data, servers)
    {
      pages := [];
      for i := 0 to |servers|
        invariant pages == PagesOf(data, servers[..i])
      {
        assert servers[..i + 1][..i] == servers[..i];
        pages := pages + data[servers[i]].pages;
      }
      assert servers[..|servers|] == servers;
    }

    /** Merge, and remember what is emitted. */
    method ComputeEmission(merge: MergeFn<T>) returns (emission: Option<T>)
      modifies this`emitted
      ensures emission == Merged(old(Value()), merge)
      ensures Value() == Emitted(old(Value()), merge)
    {
      emission := ComputeMerged(merge);
      if emission.Some? {
        emitted := emission;
      }
    }

    /** Clear the cache, and begin a dummy replace fan-out so that pending merge responses are discarded. */
    method Invalidate()
      modifies this
      ensures Value() == Invalidated(old(Value()))
    {
      data, emitted := map[], None;
      var _ := NextFanout(Replace);
    }
  }

  /** The counters one fan-out's tasks share. */
  class FanoutContext {
    const epoch: nat
    const mode: UpdateMode
    const emit: EmitMode
    var pending: nat
    var successful: nat

    ghost function Value(): Fanout
      reads this
    {
      Fanout(epoch, mode, emit, pending, successful)
    }

    constructor (epoch: nat, mode: UpdateMode, emit: EmitMode, servers: nat)
      ensures Value() == Fanout(epoch, mode, emit, servers, 0)
    {
      this.epoch, this.mode, this.emit, pending, successful := epoch, mode, emit, servers, 0;
    }
  }

  /** Begin a fan-out over `servers` servers. */
  method SpawnFanout<T>(state: QueryState<T>, mode: UpdateMode, emit: EmitMode, servers: nat)
    returns (context: FanoutContext)
    modifies state
    ensures fresh(context)
    ensures state.Value() == Begun(old(state.Value()), mode)
    ensures context.Value() == Fanout(state.epoch, mode, emit, servers, 0)
  {
    var epoch := state.NextFanout(mode);
    context := new FanoutContext(epoch, mode, emit, servers);
  }

  /** Record one server's result under the state lock. */
  method GetServerResponse<T>(state: QueryState<T>, context: FanoutContext, server: Text, result: Result<T>,
                              merge: MergeFn<T>)
    returns (snapshot: Option<QueryResult<T>>, isLast: bool)
    requires context.pending > 0
    modifies state`data, state`emitted, context
    ensures state.Value() == Reported(old(state.Value()), old(context.Value()), server, result, merge).0
    ensures context.Value() == Reported(old(state.Value()), old(context.Value()), server, result, merge).1
    ensures snapshot == Reported(old(state.Value()), old(context.Value()), server, result, merge).2
    ensures isLast <==> context.pending == 0
  {
    context.pending := context.pending - 1;
    if result.Ok? {
      context.successful := context.successful + 1;
      state.Update(server, result.value, context.epoch, context.mode);
    }
    isLast := context.pending == 0;
    if context.emit == Settled && !isLast {
      snapshot := None;
    } else {
      var status := if context.pending != 0 then Loading else if |state.data| == 0 then Failure else Success;
      var data := state.ComputeEmission(merge);
      snapshot := Some(QueryResult(data, status, context.successful, context.pending));
    }
  }

  // ----- all queries -----

  type QueryKey = seq<Text>

  class QueryClient<T> {
    var queries: map<QueryKey, QueryState<T>>

    /** Every key has a state of its own. */
    ghost predicate Valid()
      reads this
    {
      forall a, b | a in queries && b in queries && a != b :: queries[a] != queries[b]
    }

    constructor ()
      ensures Valid() && queries == map[]
    {
      queries := map[];
    }

    /** The shared state of a key, or a private one when there is no key. */
    method GetOrCreateState(key: Option<QueryKey>) returns (state: QueryState<T>)
      requires Valid()
      modifies this
      ensures Valid()
      ensures key.Some? && key.value in old(queries) ==> queries == old(queries) && state == queries[key.value]
      ensures !(key.Some? && key.value in old(queries)) ==> fresh(state) && state.Value() == Cache(map[], 0, 0, None)
      ensures key.Some? && key.value !in old(queries) ==> queries == old(queries)[key.value := state]
      ensures key.None? ==> queries == old(queries)
    {
      if key.Some? && key.value in queries {
        return queries[key.value];
      }
      state := new QueryState();
      if key.Some? {
        queries := queries[key.value := state];
      }
    }

    /** Clear every cache whose key starts with `prefix`, and no other. */
    method Invalidate(prefix: QueryKey)
      requires Valid()
      modifies set k | k in queries :: queries[k]
      ensures forall k | k in queries ::
                queries[k].Value()
                == if prefix <= k then Invalidated(old(queries[k].Value())) else old(queries[k].Value())
    {
      var rest := queries.Keys;
      while rest != {}
        invariant rest <= queries.Keys
        invariant forall k | k in rest :: queries[k].Value() == old(queries[k].Value())
        invariant forall k | k in queries && k !in rest ::
                    queries[k].Value()
                    == if prefix <= k then Invalidated(old(queries[k].Value())) else old(queries[k].Value())
        decreases |rest|
      {
        var key :| key in rest;
        rest := rest - {key};
        if prefix <= key {
          queries[key].Invalidate();
        }
      }
    }

    /** Every key starts with the empty one. */
    method InvalidateAll()
      requires Valid()
      modifies set k | k in queries :: queries[k]
      ensures forall k | k in queries :: queries[k].Value() == Invalidated(old(queries[k].Value()))
    {
      var rest := queries.Keys;
      while rest != {}
        invariant rest <= queries.Keys
        invariant forall k | k in rest :: queries[k].Value() == old(queries[k].Value())
        invariant forall k | k in queries && k !in rest :: queries[k].Value() == Invalidated(old(queries[k].Value()))
        decreases |rest|
      {
        var key :| key in rest;
        rest := rest - {key};
        queries[key].Invalidate();
      }
    }
  }
}
