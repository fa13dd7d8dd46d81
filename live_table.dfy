/** LiveCollectionTable<T>: the per-table mirror with its loading flag,
    server-pulling counter, queue of pending pull requests and busy flag, and
    the process-wide registry of live tables. The asynchronous steps (the
    initial read, `Task.Run`, the remote pull) are synchronous method calls
    here; what the environment does between them is up to the caller. */
module LiveTables {
  import opened Common
  import opened Records
  import opened ObservableCollection
  import opened QueryPairs
  import opened LiveSpec

  class LiveTable {
    /** `Collection`: the mirrored records. */
    var collection: seq<Record>
    /** `PendingQueries`. */
    var pending: seq<QueryPair>
    /** `_pulling`: a pull is being started. */
    var pulling: bool
    /** `IsLoading`. */
    var isLoading: bool
    /** `_serverPullCount`; `IsServerPulling` is `pullCount > 0`. */
    var pullCount: int
    /** Every notification and every remote pull start, in order. */
    var events: seq<Event>
    /** The table name it was registered under. */
    const name: string
    /** The record type's `UpdateFrom`. */
    const updateFrom: Updater

    /** The pull queue never holds two requests with the same identity. */
    ghost predicate Valid()
      reads this
    {
      UniqueIds(pending)
    }

    /** `IsServerPulling`'s getter. */
    function IsServerPulling(): (b: bool)
      reads this
      ensures b <==> pullCount > 0
    {
      pullCount > 0
    }

    /** The constructor (after registration): loading, not pulling, an empty
        collection and queue. */
    constructor (name: string, updateFrom: Updater)
      ensures Valid()
      ensures this.name == name && this.updateFrom == updateFrom
      ensures collection == [] && pending == [] && events == []
      ensures isLoading && !pulling && pullCount == 0
    {
      this.name := name;
      this.updateFrom := updateFrom;
      collection := [];
      pending := [];
      pulling := false;
      isLoading := true;
      pullCount := 0;
      events := [];
    }

    /** `IsServerPulling = value`: moves the counter by one and notifies
        only when it lands on 1 or on 0. */
    method SetServerPulling(value: bool)
      requires Valid()
      modifies this`pullCount, this`events
      ensures Valid()
      ensures pullCount == CountAfter(old(pullCount), value)
      ensures events == old(events) + Notice(pullCount)
    {
      if value {
        pullCount := pullCount + 1;
      } else {
        pullCount := pullCount - 1;
      }
      if pullCount == 1 || pullCount == 0 {
        events := events + [ServerPullingChanged(IsServerPulling())];
      }
    }

    /** The body of `PullAsync(queryId, query, ...)` once its delay is over:
        the counter is raised, the remote pull runs, and the counter is
        lowered only if the remote pull did not throw. */
    method PullBracket(remoteSucceeded: bool) returns (ok: bool)
      requires Valid()
      modifies this`pullCount, this`events
      ensures Valid() && ok == remoteSucceeded
      ensures pullCount == if ok then old(pullCount) else old(pullCount) + 1
      ensures events == old(events) + Notice(old(pullCount) + 1) + (if ok then Notice(old(pullCount)) else [])
    {
      SetServerPulling(true);
      if remoteSucceeded {
        SetServerPulling(false);
      }
      ok := remoteSucceeded;
    }

    /** `OnLoadingCompleted()` with its override: leave the loading state,
        notify, then try to drain the queue. */
    method OnLoadingCompleted()
      requires Valid()
      modifies this
      ensures Valid()
      ensures !isLoading
      ensures collection == old(collection) && pulling == old(pulling) && pullCount == old(pullCount)
      ensures pending == if old(pulling) then old(pending) else []
      ensures events == old(events) + [LoadingCompleted] + (if old(pulling) then [] else Starts(old(pending)))
    {
      isLoading := false;
      events := events + [LoadingCompleted];
      ProcessNextPendingServerRefresh();
    }

    /** The initial load the constructor starts: the whole read is added
        with one `AddRange` (notifying only if it returned a change), then
        loading completes. A read that fails leaves the table loading. */
    method CompleteInitialLoad(read: Option<seq<Record>>)
      requires Valid()
      modifies this
      ensures Valid()
      ensures read.None? ==> collection == old(collection) && events == old(events) && isLoading == old(isLoading)
                             && pending == old(pending)
      ensures read.Some? ==>
        && !isLoading
        && collection == old(collection) + read.value
        && pending == (if old(pulling) then old(pending) else [])
        && events == old(events)
             + (if read.value == [] then [] else [CollectionChanged(Some(Added(read.value, |old(collection)|)))])
             + [LoadingCompleted]
             + (if old(pulling) then [] else Starts(old(pending)))
      ensures pulling == old(pulling) && pullCount == old(pullCount)
    {
      if read.None? {
        return;
      }
      var e := AddRange(collection, read.value);
      collection := e.coll;
      if e.change.Some? {
        events := events + [CollectionChanged(e.change)];
      }
      OnLoadingCompleted();
    }

    /** `ProcessNextPendingServerRefresh()`: start the pull of the head of
        the queue, if there is one. Starting it drains the queue in order
        unless a pull is being started or the table is still loading. */
    method ProcessNextPendingServerRefresh()
      requires Valid()
      modifies this
      decreases |pending|, 1
      ensures Valid()
      ensures collection == old(collection) && isLoading == old(isLoading) && pulling == old(pulling)
      ensures pullCount == old(pullCount)
      ensures old(pulling) || old(isLoading) ==> pending == old(pending) && events == old(events)
      ensures !old(pulling) && !old(isLoading) ==> pending == [] && events == old(events) + Starts(old(pending))
    {
      if pending != [] {
        ghost var qs := pending;
        assert RemoveFirst(qs, qs[0]) == qs[1..];
        assert Starts(qs) == [PullStarted(qs[0].id, qs[0].pred)] + Starts(qs[1..]);
        var started := InnerPullAsync(pending[0]);
      }
    }

    /** `InnerPullAsync(queryPair)`: unless busy or loading, mark busy,
        start the remote pull for the request (not awaited), take the request
        off the queue, clear the mark and try the next one. `started` says
        whether this call started a pull of its own: the source then returns
        that pull's task, and otherwise an already completed one. */
    method InnerPullAsync(q: QueryPair) returns (started: bool)
      requires Valid() && q in pending
      modifies this
      decreases |pending|, 0
      ensures Valid()
      ensures collection == old(collection) && isLoading == old(isLoading) && pulling == old(pulling)
      ensures pullCount == old(pullCount)
      ensures started <==> !old(pulling) && !old(isLoading)
      ensures old(pulling) || old(isLoading) ==> pending == old(pending) && events == old(events)
      ensures !old(pulling) && !old(isLoading) ==>
        pending == [] && events == old(events) + [PullStarted(q.id, q.pred)] + Starts(RemoveFirst(old(pending), q))
    {
      if pulling || isLoading {
        return false;
      }
      pulling := true;
      events := events + [PullStarted(q.id, q.pred)];
      RemoveFirstKeepsUnique(pending, q);
      pending := RemoveFirst(pending, q);
      pulling := false;
      ProcessNextPendingServerRefresh();
      started := true;
    }

    /** `PullAsync(queryPair)`: a request whose identity is already queued is
        ignored; otherwise it is queued and its pull attempted at once.
        `started` says whether the returned task is a pull of this request;
        when it is false the caller gets an already completed task, so a
        request queued behind loading or a running pull reports completion
        at once and never sees that pull's outcome. */
    method PullAsync(q: QueryPair) returns (started: bool)
      requires Valid()
      modifies this
      ensures Valid()
      ensures started <==> !HasId(old(pending), q.id) && !old(pulling) && !old(isLoading)
      ensures collection == old(collection) && isLoading == old(isLoading) && pulling == old(pulling)
      ensures pullCount == old(pullCount)
      ensures HasId(old(pending), q.id) ==> pending == old(pending) && events == old(events)
      ensures !HasId(old(pending), q.id) && (pulling || isLoading) ==>
        pending == old(pending) + [q] && events == old(events)
      ensures !HasId(old(pending), q.id) && !pulling && !isLoading ==>
        pending == [] && events == old(events) + [PullStarted(q.id, q.pred)] + Starts(old(pending))
    {
      if HasId(pending, q.id) {
        return false;
      }
      RemoveAppended(pending, q);
      pending := pending + [q];
      started := InnerPullAsync(q);
    }

    /** `ProcessJObjects(serverJObjects)`: sorts each incoming object into an
        update in place, a removal, an insertion or nothing; then applies the
        removals and the insertions as one batch each. `ok` is false when an
        object did not convert: the method throws there, after the updates
        already made and before either batch. */
    method ProcessJObjects(batch: seq<Option<Record>>) returns (ok: bool)
      requires Valid()
      modifies this`collection, this`events
      ensures Valid()
      ensures var r := Reconcile(old(collection), batch, updateFrom);
        ok == r.ok && collection == r.coll && events == old(events) + r.events
    {
      ghost var start := collection;
      var deleteItems: seq<Record> := [];
      var insertItems: seq<Record> := [];
      var i := 0;
      while i < |batch|
        invariant 0 <= i <= |batch|
        invariant ScanBatch(start, batch[..i], updateFrom) == Scan(collection, deleteItems, insertItems, false)
        invariant events == old(events)
      {
        assert batch[..i + 1][..i] == batch[..i];
        match batch[i] {
          case None =>
            FailureSticks(start, batch, updateFrom, i + 1);
            return false;
          case Some(serverItem) =>
            match FirstIndex(collection, serverItem.id) {
              case Some(k) =>
                if serverItem.deleted {
                  deleteItems := deleteItems + [serverItem];
                } else {
                  collection := collection[k := updateFrom(collection[k], serverItem)];
                }
              case None =>
                if !serverItem.deleted {
                  insertItems := insertItems + [serverItem];
                }
            }
        }
        i := i + 1;
      }
      assert batch[..i] == batch;
      if deleteItems != [] {
        var e := RemoveRange(collection, deleteItems);
        collection := e.coll;
        events := events + [CollectionChanged(e.change)];
      }
      if insertItems != [] {
        var e := AddRange(collection, insertItems);
        collection := e.coll;
        events := events + [CollectionChanged(e.change)];
      }
      ok := true;
    }

    /** `RemoveItemsAtIds(ids)`: collects the first record for each id that
        is present and removes them with one `RemoveRange` and one
        notification, only if any matched. */
    method RemoveItemsAtIds(ids: seq<string>)
      requires Valid()
      modifies this`collection, this`events
      ensures Valid()
      ensures collection == RemoveAtIds(old(collection), ids).0
      ensures events == old(events) + RemoveAtIds(old(collection), ids).1
    {
      var deleteItems: seq<Record> := [];
      var i := 0;
      while i < |ids|
        invariant 0 <= i <= |ids|
        invariant deleteItems == MatchesFor(collection, ids[..i])
      {
        assert ids[..i + 1][..i] == ids[..i];
        match FirstIndex(collection, ids[i]) {
          case Some(k) =>
            deleteItems := deleteItems + [collection[k]];
          case None =>
        }
        i := i + 1;
      }
      assert ids[..i] == ids;
      if deleteItems != [] {
        var e := RemoveRange(collection, deleteItems);
        collection := e.coll;
        events := events + [CollectionChanged(e.change)];
      }
    }
  }

  /** `LiveCollectionTable.Tables`: the process-wide table-name registry. */
  class Registry {
    var tables: map<string, LiveTable>

    constructor ()
      ensures tables == map[]
    {
      tables := map[];
    }

    /** `Reset()`: drops every registration; the next access starts from an
        empty dictionary. */
    method Reset()
      modifies this
      ensures tables == map[]
    {
      tables := map[];
    }

    /** `Tables.Add(name, table)`: fails (throws) on a name already taken. */
    method Add(name: string, t: LiveTable) returns (ok: bool)
      modifies this
      ensures ok == (name !in old(tables))
      ensures tables == if ok then old(tables)[name := t] else old(tables)
    {
      ok := name !in tables;
      if ok {
        tables := tables[name := t];
      }
    }

    /** `Tables.TryGetValue(name, out table)`. */
    function Lookup(name: string): (r: Option<LiveTable>)
      reads this
      ensures r.Some? <==> name in tables
      ensures r.Some? ==> r.value == tables[name]
    {
      if name in tables then Some(tables[name]) else None
    }
  }

  /** `new LiveCollectionTable<T>(tableName, ...)`: registers the new table
      under its name first; a name already registered makes the constructor
      throw and leaves the registry as it was. The initial load it starts is
      `CompleteInitialLoad`. */
  method NewLiveTable(registry: Registry, name: string, updateFrom: Updater) returns (r: Option<LiveTable>)
    modifies registry
    ensures name in old(registry.tables) ==> r.None? && registry.tables == old(registry.tables)
    ensures name !in old(registry.tables) ==>
      && r.Some? && fresh(r.value)
      && registry.tables == old(registry.tables)[name := r.value]
      && r.value.Valid() && r.value.name == name && r.value.updateFrom == updateFrom
      && r.value.isLoading && !r.value.pulling && r.value.pullCount == 0
      && r.value.collection == [] && r.value.pending == [] && r.value.events == []
  {
    var t := new LiveTable(name, updateFrom);
    var ok := registry.Add(name, t);
    r := if ok then Some(t) else None;
  }

  /** A fresh table pulls the match-everything request twice while its
      initial read is outstanding: the second request is ignored, and the
      queued one starts once the read has been added and loading ends.
      Neither caller gets the pull's task: both see completion at once. */
  method PullWhileLoadingScenario(updateFrom: Updater)
    returns (started: seq<bool>, events: seq<Event>, pending: seq<QueryPair>, contents: seq<Record>)
    ensures started == [false, false]
    ensures events == [CollectionChanged(Some(Added([R1], 0))), LoadingCompleted, PullStarted(AllId, None)]
    ensures pending == [] && contents == [R1]
  {
    var t := new LiveTable("todoitem", updateFrom);
    var first := t.PullAsync(Default());
    assert HasId(t.pending, AllId) by {
      assert t.pending[0].id == AllId;
    }
    var second := t.PullAsync(Default());
    started := [first, second];
    t.CompleteInitialLoad(Some([R1]));
    events, pending, contents := t.events, t.pending, t.collection;
  }

  /** A remote pull that throws leaves the counter raised: the table reports
      pulling from then on, and the next successful pull, going from 1 to 2
      and back to 1, notifies "pulling" once more instead of "idle". */
  method FailedPullScenario(updateFrom: Updater) returns (pulling: bool, events: seq<Event>)
    ensures pulling
    ensures events == [ServerPullingChanged(true), ServerPullingChanged(true)]
  {
    var t := new LiveTable("todoitem", updateFrom);
    var ok := t.PullBracket(false);
    ok := t.PullBracket(true);
    pulling, events := t.IsServerPulling(), t.events;
  }

  /** Two nested pulls that both finish, as setter calls: the log is the
      counter trace of two raises and two lowerings, so the 2 -> 1 step
      notifies "pulling" a second time before "idle". */
  method NestedPullsScenario(updateFrom: Updater) returns (pulling: bool, events: seq<Event>)
    ensures !pulling
    ensures events == AsNotices(PullingTrace(0, Repeat(true, 2) + Repeat(false, 2)))
    ensures events == [ServerPullingChanged(true), ServerPullingChanged(true), ServerPullingChanged(false)]
  {
    var t := new LiveTable("todoitem", updateFrom);
    t.SetServerPulling(true);
    t.SetServerPulling(true);
    t.SetServerPulling(false);
    t.SetServerPulling(false);
    NestedPullsTrace(2);
    assert AsNotices([true, true, false]) == [ServerPullingChanged(true)] + AsNotices([true, false]) by {
      assert [true, true, false][1..] == [true, false];
    }
    assert AsNotices([true, false]) == [ServerPullingChanged(true), ServerPullingChanged(false)] by {
      assert [true, false][1..] == [false];
      assert [false][1..] == [];
    }
    pulling, events := t.IsServerPulling(), t.events;
  }
}
