/** The value-level specification of a live table's bookkeeping: the
    notifications it raises, the server-pulling counter, and the
    reconciliation of a server batch (`ProcessJObjects`) and of a local
    delete (`RemoveItemsAtIds`) against the mirrored collection. The class
    in module LiveTables is proved against these functions. */
module LiveSpec {
  import opened Common
  import opened Records
  import opened ObservableCollection
  import opened QueryPairs

  /** What a live table raises, in the order it raises it. `PullStarted`
      records the start of a remote pull for a request (the pull itself runs
      later); `CollectionChanged` carries the argument the collection
      returned, which the code passes on even when it is null. */
  datatype Event =
    | CollectionChanged(args: Option<Change>)
    | LoadingCompleted
    | ServerPullingChanged(isPulling: bool)
    | PullStarted(queryId: string, filter: Option<Pred>)

  // ---------------------------------------------------------------------
  // The server-pulling counter (`IsServerPulling`'s setter)

  /** The counter after one assignment to `IsServerPulling`. */
  function CountAfter(count: int, value: bool): int
  {
    if value then count + 1 else count - 1
  }

  /** The notification raised once the counter has reached `count`: only at
      1 and at 0, carrying whether the table is now pulling. */
  function Notice(count: int): seq<Event>
  {
    if count == 1 || count == 0 then [ServerPullingChanged(count > 0)] else []
  }

  /** The `ServerPullingChanged` payloads of a run of assignments. */
  function PullingTrace(count: int, values: seq<bool>): seq<bool>
    decreases |values|
  {
    if values == [] then []
    else
      var next := CountAfter(count, values[0]);
      (if next == 1 || next == 0 then [next > 0] else []) + PullingTrace(next, values[1..])
  }

  /** The `ServerPullingChanged` notifications carrying a trace's payloads. */
  function AsNotices(payloads: seq<bool>): (r: seq<Event>)
    ensures |r| == |payloads|
    decreases |payloads|
  {
    if payloads == [] then [] else [ServerPullingChanged(payloads[0])] + AsNotices(payloads[1..])
  }

  /** The setter's notice is the trace of one assignment: what a run of
      setter calls logs is, step by step, its `PullingTrace`. */
  lemma NoticeIsTrace(count: int, value: bool)
    ensures Notice(CountAfter(count, value)) == AsNotices(PullingTrace(count, [value]))
  {
    assert [value][1..] == [];
  }

  /** n assignments of the same value. */
  function Repeat(value: bool, n: nat): (r: seq<bool>)
    ensures |r| == n
  {
    if n == 0 then [] else [value] + Repeat(value, n - 1)
  }

  /** For a non-negative counter, one assignment notifies exactly on 0 -> 1
      (true), 1 -> 0 (false) and 2 -> 1 (true once more); 1 -> 2 and every
      other step are silent. */
  lemma NoticeSteps(count: int, value: bool)
    requires count >= 0
    ensures Notice(CountAfter(count, value)) ==
      if value && count == 0 then [ServerPullingChanged(true)]
      else if !value && count == 2 then [ServerPullingChanged(true)]
      else if !value && count == 1 then [ServerPullingChanged(false)]
      else []
  {
  }

  /** Raising an already positive counter is silent. */
  lemma {:induction false} RaisingIsSilent(count: int, n: nat)
    requires count >= 1
    ensures PullingTrace(count, Repeat(true, n)) == []
    decreases n
  {
    if n > 0 {
      assert Repeat(true, n)[1..] == Repeat(true, n - 1);
      RaisingIsSilent(count + 1, n - 1);
    }
  }

  /** Lowering a counter of n to 0 notifies `true` at 2 -> 1 (when n >= 2)
      and `false` at 1 -> 0. */
  lemma {:induction false} LoweringTrace(n: nat)
    requires n >= 1
    ensures PullingTrace(n, Repeat(false, n)) == if n == 1 then [false] else [true, false]
    decreases n
  {
    var r := Repeat(false, n - 1);
    assert Repeat(false, n) == [false] + r;
    TraceCons(n, false, r);
    var h := PullingTrace(n, [false]);
    assert h == (if n - 1 == 1 || n - 1 == 0 then [n - 1 > 0] else []) by {
      assert [false][1..] == [];
    }
    if n == 1 {
      assert r == [];
      assert h + PullingTrace(0, r) == [false];
    } else {
      LoweringTrace(n - 1);
      if n == 2 {
        assert h + PullingTrace(1, r) == [true, false];
      } else {
        assert h + PullingTrace(n - 1, r) == [true, false];
      }
    }
  }

  /** One assignment in front of a run. */
  lemma TraceCons(count: int, x: bool, rest: seq<bool>)
    ensures PullingTrace(count, [x] + rest) ==
      PullingTrace(count, [x]) + PullingTrace(CountAfter(count, x), rest)
  {
    assert ([x] + rest)[1..] == rest;
    assert [x][1..] == [];
  }

  /** The trace of n raises followed by anything splits at the counter
      those raises reach. */
  lemma {:induction false} RaisesThen(count: int, n: nat, b: seq<bool>)
    ensures PullingTrace(count, Repeat(true, n) + b) == PullingTrace(count, Repeat(true, n)) + PullingTrace(count + n, b)
    decreases n
  {
    if n == 0 {
      assert Repeat(true, 0) + b == b;
    } else {
      var r := Repeat(true, n - 1);
      assert Repeat(true, n) == [true] + r;
      ConcatAssoc([true], r, b);
      TraceCons(count, true, r + b);
      TraceCons(count, true, r);
      RaisesThen(count + 1, n - 1, b);
      ConcatAssoc(PullingTrace(count, [true]), PullingTrace(count + 1, r), PullingTrace(count + n, b));
    }
  }

  /** n raises of an idle counter notify once. */
  lemma RaisingFromIdle(n: nat)
    requires n >= 1
    ensures PullingTrace(0, Repeat(true, n)) == [true]
  {
    assert Repeat(true, n) == [true] + Repeat(true, n - 1);
    TraceCons(0, true, Repeat(true, n - 1));
    RaisingIsSilent(1, n - 1);
    assert PullingTrace(0, [true]) == [true] by {
      assert [true][1..] == [];
    }
  }

  /** n nested pulls on an idle table: the first start notifies `true`, the
      others are silent; on the way down the code notifies `true` again at
      2 -> 1 before the final `false`, so a boundary-only rule (notify
      only at 0 <-> 1) holds only for n == 1. */
  lemma NestedPullsTrace(n: nat)
    requires n >= 1
    ensures PullingTrace(0, Repeat(true, n) + Repeat(false, n)) ==
      if n == 1 then [true, false] else [true, true, false]
  {
    RaisesThen(0, n, Repeat(false, n));
    RaisingFromIdle(n);
    LoweringTrace(n);
    var up := PullingTrace(0, Repeat(true, n));
    var down := PullingTrace(n, Repeat(false, n));
    if n == 1 {
      assert up + down == [true, false];
    } else {
      assert up + down == [true, true, false];
    }
  }

  // ---------------------------------------------------------------------
  // The pull queue

  /** The notifications of starting the remote pull of each request, in order. */
  function Starts(qs: seq<QueryPair>): (r: seq<Event>)
    ensures |r| == |qs|
  {
    if qs == [] then [] else [PullStarted(qs[0].id, qs[0].pred)] + Starts(qs[1..])
  }

  /** The i-th start is the i-th request's, with its identity and filter. */
  lemma {:induction false} StartsAt(qs: seq<QueryPair>, i: nat)
    requires i < |qs|
    ensures Starts(qs)[i] == PullStarted(qs[i].id, qs[i].pred)
    decreases i
  {
    if i > 0 {
      StartsAt(qs[1..], i - 1);
    }
  }

  /** No two pending requests share an identity. */
  ghost predicate UniqueIds(qs: seq<QueryPair>)
  {
    forall i, j :: 0 <= i < j < |qs| ==> qs[i].id != qs[j].id
  }

  /** `PendingQueries.Any(q => q.Id == id)`. */
  predicate HasId(qs: seq<QueryPair>, id: string)
  {
    exists i :: 0 <= i < |qs| && qs[i].id == id
  }

  /** `List.Remove(q)`: removes the first occurrence of `q`, if any. */
  function RemoveFirst(qs: seq<QueryPair>, q: QueryPair): (r: seq<QueryPair>)
    ensures q in qs ==> |r| == |qs| - 1
    ensures q !in qs ==> r == qs
    ensures forall x :: x in r ==> x in qs
    ensures qs != [] && qs[0] == q ==> r == qs[1..]
  {
    if qs == [] then []
    else if qs[0] == q then qs[1..]
    else [qs[0]] + RemoveFirst(qs[1..], q)
  }

  /** Removing from a queue with distinct identities keeps them distinct. */
  lemma {:induction false} RemoveFirstKeepsUnique(qs: seq<QueryPair>, q: QueryPair)
    requires UniqueIds(qs)
    ensures UniqueIds(RemoveFirst(qs, q))
    ensures forall x :: x in RemoveFirst(qs, q) ==> x != q
    decreases |qs|
  {
    if qs != [] && qs[0] != q {
      RemoveFirstKeepsUnique(qs[1..], q);
      var r := RemoveFirst(qs, q);
      forall i, j | 0 <= i < j < |r| ensures r[i].id != r[j].id {
        if i == 0 {
          assert r[j] in qs[1..];
        }
      }
    } else if qs != [] {
      forall x | x in qs[1..] ensures x != q {
        assert x.id != q.id;
      }
    }
  }

  /** A request that was just appended to a queue that did not hold its
      identity is exactly the one `Remove` takes out again. */
  lemma RemoveAppended(qs: seq<QueryPair>, q: QueryPair)
    requires !HasId(qs, q.id)
    ensures RemoveFirst(qs + [q], q) == qs
    decreases |qs|
  {
    if qs != [] {
      assert qs[0] != q;
      assert (qs + [q])[1..] == qs[1..] + [q];
      RemoveAppended(qs[1..], q);
    }
  }

  // ---------------------------------------------------------------------
  // Reconciliation of a server batch (`ProcessJObjects`)

  /** The state of the loop over a batch: the collection with the in-place
      updates made so far, the server items queued for removal and for
      insertion, and whether a conversion has failed (the loop has thrown). */
  datatype Scan = Scan(coll: seq<Record>, removals: seq<Record>, insertions: seq<Record>, failed: bool)

  /** One iteration of the loop over the incoming objects. `None` is an
      object that does not convert to a record. The lookup is against the
      collection as it is now, never against earlier items of the batch. */
  function ScanItem(s: Scan, item: Option<Record>, u: Updater): Scan
  {
    if s.failed then s
    else match item
      case None => s.(failed := true)
      case Some(r) =>
        match FirstIndex(s.coll, r.id)
        case Some(k) =>
          if r.deleted then s.(removals := s.removals + [r])
          else s.(coll := s.coll[k := u(s.coll[k], r)])
        case None =>
          if r.deleted then s else s.(insertions := s.insertions + [r])
  }

  /** The loop over a whole batch, item by item from the first. */
  function ScanBatch(c: seq<Record>, batch: seq<Option<Record>>, u: Updater): Scan
    decreases |batch|
  {
    if batch == [] then Scan(c, [], [], false)
    else ScanItem(ScanBatch(c, batch[..|batch| - 1], u), batch[|batch| - 1], u)
  }

  /** The outcome of reconciling a batch: the new collection, the
      notifications raised, and whether it completed without throwing. */
  datatype Reconciled = Reconciled(coll: seq<Record>, events: seq<Event>, ok: bool)

  /** `ProcessJObjects(batch)`: the scan, then (unless a conversion failed)
      one `RemoveRange` of the removals and one `AddRange` of the insertions,
      each done and notified only when its list is not empty. */
  function Reconcile(c: seq<Record>, batch: seq<Option<Record>>, u: Updater): Reconciled
  {
    var s := ScanBatch(c, batch, u);
    if s.failed then Reconciled(s.coll, [], false)
    else
      var removed := if s.removals == [] then Edit(s.coll, None) else RemoveRange(s.coll, s.removals);
      var e1 := if s.removals == [] then [] else [CollectionChanged(removed.change)];
      var added := if s.insertions == [] then Edit(removed.coll, None) else AddRange(removed.coll, s.insertions);
      var e2 := if s.insertions == [] then [] else [CollectionChanged(added.change)];
      Reconciled(added.coll, e1 + e2, true)
  }

  /** How an incoming record is treated, by whether its identity is in the
      collection and whether it is soft-deleted. */
  datatype Disposition = Removal | Update | Dropped | Insertion

  function Classify(c: seq<Record>, r: Record): Disposition
  {
    if r.id in Ids(c) then (if r.deleted then Removal else Update)
    else (if r.deleted then Dropped else Insertion)
  }

  /** The converted records of a batch with a given disposition, in order: an
      independent definition of the removal and insertion lists. */
  function Select(c: seq<Record>, batch: seq<Option<Record>>, d: Disposition): seq<Record>
    decreases |batch|
  {
    if batch == [] then []
    else
      var n := |batch| - 1;
      var rest := Select(c, batch[..n], d);
      if batch[n].Some? && Classify(c, batch[n].value) == d then rest + [batch[n].value] else rest
  }

  /** A record is selected exactly when some item of the batch is that record
      with that disposition. */
  lemma {:induction false} SelectMembers(c: seq<Record>, batch: seq<Option<Record>>, d: Disposition)
    ensures forall x :: x in Select(c, batch, d) <==> exists i :: 0 <= i < |batch| && batch[i] == Some(x) && Classify(c, x) == d
    decreases |batch|
  {
    if batch != [] {
      var n := |batch| - 1;
      SelectMembers(c, batch[..n], d);
      assert forall i :: 0 <= i < n ==> batch[..n][i] == batch[i];
    }
  }

  /** Nothing is selected when no item has that disposition. */
  lemma {:induction false} SelectNone(c: seq<Record>, batch: seq<Option<Record>>, d: Disposition)
    requires forall i :: 0 <= i < |batch| && batch[i].Some? ==> Classify(c, batch[i].value) != d
    ensures Select(c, batch, d) == []
    decreases |batch|
  {
    if batch != [] {
      var n := |batch| - 1;
      assert forall i :: 0 <= i < n ==> batch[..n][i] == batch[i];
      SelectNone(c, batch[..n], d);
    }
  }

  /** Every item of the batch converts. */
  predicate AllConvert(batch: seq<Option<Record>>)
  {
    forall i :: 0 <= i < |batch| ==> batch[i].Some?
  }

  /** Some converted item of the batch has this identity and this flag. */
  ghost predicate Carries(batch: seq<Option<Record>>, id: string, deleted: bool)
  {
    exists i :: 0 <= i < |batch| && batch[i].Some? && batch[i].value.id == id && batch[i].value.deleted == deleted
  }

  /** An update in place changes no identity, so no position either. */
  lemma UpdateKeepsIds(c: seq<Record>, k: nat, u: Updater, r: Record)
    requires k < |c| && KeepsIds(u)
    ensures Ids(c[k := u(c[k], r)]) == Ids(c)
  {
    assert u(c[k], r).id == c[k].id;
  }

  /** The loop partitions the batch exactly as the table says: items present
      and deleted are removals, items absent and live are insertions, in batch
      order; items present and live are updated in place and absent deleted
      ones dropped. The collection keeps its identities position by position,
      and the loop fails exactly when some item does not convert. */
  lemma {:induction false} ScanPartition(c: seq<Record>, batch: seq<Option<Record>>, u: Updater)
    requires KeepsIds(u)
    ensures var s := ScanBatch(c, batch, u);
      && Ids(s.coll) == Ids(c)
      && (s.failed <==> !AllConvert(batch))
      && (!s.failed ==> s.removals == Select(c, batch, Removal) && s.insertions == Select(c, batch, Insertion))
    decreases |batch|
  {
    if batch != [] {
      var n := |batch| - 1;
      var p := ScanBatch(c, batch[..n], u);
      assert ScanBatch(c, batch, u) == ScanItem(p, batch[n], u);
      ScanPartition(c, batch[..n], u);
      AllConvertSnoc(batch);
      SelectSnoc(c, batch, Removal);
      SelectSnoc(c, batch, Insertion);
      ScanItemPartition(c, p, batch[n], u);
    }
  }

  lemma AllConvertSnoc(batch: seq<Option<Record>>)
    requires batch != []
    ensures AllConvert(batch) <==> AllConvert(batch[..|batch| - 1]) && batch[|batch| - 1].Some?
  {
    var n := |batch| - 1;
    assert forall i :: 0 <= i < n ==> batch[..n][i] == batch[i];
  }

  lemma SelectSnoc(c: seq<Record>, batch: seq<Option<Record>>, d: Disposition)
    requires batch != []
    ensures var n := |batch| - 1;
      Select(c, batch, d) == Select(c, batch[..n], d) +
        (if batch[n].Some? && Classify(c, batch[n].value) == d then [batch[n].value] else [])
  {
  }

  /** One iteration keeps the identities and extends the lists by the item's
      disposition. */
  lemma ScanItemPartition(c: seq<Record>, p: Scan, item: Option<Record>, u: Updater)
    requires KeepsIds(u) && Ids(p.coll) == Ids(c)
    ensures var s := ScanItem(p, item, u);
      && Ids(s.coll) == Ids(c)
      && (s.failed <==> p.failed || item.None?)
      && (!s.failed ==>
           && s.removals == p.removals + (if Classify(c, item.value) == Removal then [item.value] else [])
           && s.insertions == p.insertions + (if Classify(c, item.value) == Insertion then [item.value] else []))
  {
    if !p.failed && item.Some? {
      var r := item.value;
      match FirstIndex(p.coll, r.id)
      case Some(k) =>
        if !r.deleted { UpdateKeepsIds(p.coll, k, u, r); }
      case None =>
    }
  }

  /** The identities the removal list carries: those present and coming in
      deleted. */
  lemma RemovalIds(c: seq<Record>, batch: seq<Option<Record>>)
    ensures forall id :: id in IdSet(Select(c, batch, Removal)) <==> id in Ids(c) && Carries(batch, id, true)
  {
    SelectMembers(c, batch, Removal);
    forall id ensures id in IdSet(Select(c, batch, Removal)) <==> id in Ids(c) && Carries(batch, id, true) {
      if id in Ids(c) && Carries(batch, id, true) {
        var i :| 0 <= i < |batch| && batch[i].Some? && batch[i].value.id == id && batch[i].value.deleted;
        assert batch[i].value in Select(c, batch, Removal);
      }
      if id in IdSet(Select(c, batch, Removal)) {
        var x :| x in Select(c, batch, Removal) && x.id == id;
        var i :| 0 <= i < |batch| && batch[i] == Some(x) && Classify(c, x) == Removal;
      }
    }
  }

  /** The identities the insertion list carries: those absent and coming in
      live. */
  lemma InsertionIds(c: seq<Record>, batch: seq<Option<Record>>)
    ensures forall id :: id in Ids(Select(c, batch, Insertion)) <==> id !in Ids(c) && Carries(batch, id, false)
  {
    SelectMembers(c, batch, Insertion);
    var ins := Select(c, batch, Insertion);
    forall id ensures id in Ids(ins) <==> id !in Ids(c) && Carries(batch, id, false) {
      if id in Ids(ins) {
        var k :| 0 <= k < |ins| && ins[k].id == id;
        var x := ins[k];
        var i :| 0 <= i < |batch| && batch[i] == Some(x) && Classify(c, x) == Insertion;
      }
      if id !in Ids(c) && Carries(batch, id, false) {
        var i :| 0 <= i < |batch| && batch[i].Some? && batch[i].value.id == id && !batch[i].value.deleted;
        var x := batch[i].value;
        assert x in ins;
        var k :| 0 <= k < |ins| && ins[k] == x;
        assert Ids(ins)[k] == id;
      }
    }
  }

  /** The membership the reconciliation leaves behind: an identity is in the
      new collection exactly when it was there and no deleted copy came in, or
      it was not there and a live copy came in. */
  lemma ReconcileMembership(c: seq<Record>, batch: seq<Option<Record>>, u: Updater)
    requires KeepsIds(u) && AllConvert(batch)
    ensures var r := Reconcile(c, batch, u);
      && r.ok
      && forall id :: id in Ids(r.coll) <==>
           (id in Ids(c) && !Carries(batch, id, true)) || (id !in Ids(c) && Carries(batch, id, false))
  {
    ScanPartition(c, batch, u);
    RemovalIds(c, batch);
    InsertionIds(c, batch);
    var s := ScanBatch(c, batch, u);
    var removed := if s.removals == [] then Edit(s.coll, None) else RemoveRange(s.coll, s.removals);
    assert forall id :: id in Ids(removed.coll) <==> id in Ids(c) && !Carries(batch, id, true);
    IdsConcat(removed.coll, s.insertions);
  }

  /** The notifications of a reconciliation: nothing when a conversion fails;
      otherwise one removal notice (carrying the collection's matching
      records) exactly when some present item is deleted, then one addition
      notice (carrying the insertions, after the remaining records) exactly
      when some absent item is live. */
  lemma ReconcileNotifications(c: seq<Record>, batch: seq<Option<Record>>, u: Updater)
    requires KeepsIds(u)
    ensures var r := Reconcile(c, batch, u);
      var rm := Select(c, batch, Removal) != [];
      var ins := Select(c, batch, Insertion) != [];
      && (!r.ok ==> r.events == [])
      && (r.ok ==> |r.events| == (if rm then 1 else 0) + (if ins then 1 else 0))
      && (r.ok && rm ==>
            && r.events[0].CollectionChanged? && r.events[0].args.Some? && r.events[0].args.value.Removed?
            && forall x :: x in r.events[0].args.value.items <==>
                 x in ScanBatch(c, batch, u).coll && x.id in IdSet(Select(c, batch, Removal)))
      && (r.ok && ins ==>
            var last := r.events[|r.events| - 1];
            && last.CollectionChanged? && last.args.Some? && last.args.value.Added?
            && last.args.value.items == Select(c, batch, Insertion)
            && last.args.value.index == |r.coll| - |Select(c, batch, Insertion)|)
  {
    ScanPartition(c, batch, u);
    var s := ScanBatch(c, batch, u);
    if !s.failed && s.removals != [] {
      SelectMembers(c, batch, Removal);
      var x := s.removals[0];
      assert x in Select(c, batch, Removal);
      assert x.id in Ids(s.coll);
    }
  }

  /** No identity comes in both deleted and live within one batch. */
  ghost predicate ConsistentDeletion(batch: seq<Option<Record>>)
  {
    forall i, j ::
      (0 <= i < |batch| && 0 <= j < |batch| && batch[i].Some? && batch[j].Some? && batch[i].value.id == batch[j].value.id)
      ==> batch[i].value.deleted == batch[j].value.deleted
  }

  /** Re-applying a batch that went through changes no membership and raises
      nothing, provided no identity comes in both deleted and live. */
  lemma ReconcileIdempotent(c: seq<Record>, batch: seq<Option<Record>>, u: Updater)
    requires KeepsIds(u) && AllConvert(batch) && ConsistentDeletion(batch)
    ensures var r1 := Reconcile(c, batch, u);
      var r2 := Reconcile(r1.coll, batch, u);
      r2.ok && r2.events == [] && Ids(r2.coll) == Ids(r1.coll)
  {
    var r1 := Reconcile(c, batch, u);
    ReconcileMembership(c, batch, u);
    forall i | 0 <= i < |batch| && batch[i].Some?
      ensures Classify(r1.coll, batch[i].value) == if batch[i].value.deleted then Dropped else Update
    {
      var x := batch[i].value;
      forall j | 0 <= j < |batch| && batch[j].Some? && batch[j].value.id == x.id
        ensures batch[j].value.deleted == x.deleted
      {
      }
      assert Carries(batch, x.id, x.deleted);
    }
    SelectNone(r1.coll, batch, Removal);
    SelectNone(r1.coll, batch, Insertion);
    ScanPartition(r1.coll, batch, u);
  }

  /** An unconvertible item aborts the batch: nothing is removed, inserted or
      notified, but the in-place updates made before it stay. */
  lemma {:induction false} FailureAfterUpdates(c: seq<Record>, batch: seq<Option<Record>>, u: Updater, i: nat)
    requires i < |batch| && batch[i].None? && AllConvert(batch[..i])
    ensures var s := ScanBatch(c, batch[..i], u);
      var r := Reconcile(c, batch, u);
      !r.ok && r.events == [] && r.coll == s.coll
  {
    var s := ScanBatch(c, batch[..i], u);
    NotFailedWhileConverting(c, batch[..i], u);
    assert batch[..i + 1][..i] == batch[..i];
    assert ScanBatch(c, batch[..i + 1], u) == s.(failed := true);
    FailureSticks(c, batch, u, i + 1);
  }

  lemma {:induction false} NotFailedWhileConverting(c: seq<Record>, batch: seq<Option<Record>>, u: Updater)
    requires AllConvert(batch)
    ensures !ScanBatch(c, batch, u).failed
    decreases |batch|
  {
    if batch != [] {
      var n := |batch| - 1;
      assert AllConvert(batch[..n]) by {
        assert forall j :: 0 <= j < n ==> batch[..n][j] == batch[j];
      }
      NotFailedWhileConverting(c, batch[..n], u);
    }
  }

  /** Once the loop has thrown, later items change nothing. */
  lemma {:induction false} FailureSticks(c: seq<Record>, batch: seq<Option<Record>>, u: Updater, i: nat)
    requires i <= |batch| && ScanBatch(c, batch[..i], u).failed
    ensures ScanBatch(c, batch, u) == ScanBatch(c, batch[..i], u)
    decreases |batch|
  {
    if i < |batch| {
      var n := |batch| - 1;
      assert batch[..n][..i] == batch[..i];
      FailureSticks(c, batch[..n], u, i);
    } else {
      assert batch[..i] == batch;
    }
  }

  // ---------------------------------------------------------------------
  // Local deletes (`RemoveItemsAtIds`)

  /** The records the loop over `ids` collects: for each id present, the
      first record of the collection with it, in the order of `ids`. */
  function MatchesFor(c: seq<Record>, ids: seq<string>): (r: seq<Record>)
    ensures forall x :: x in r ==> x in c
    ensures r == [] <==> forall i :: 0 <= i < |ids| ==> ids[i] !in Ids(c)
    decreases |ids|
  {
    if ids == [] then []
    else
      var n := |ids| - 1;
      var rest := MatchesFor(c, ids[..n]);
      assert forall i :: 0 <= i < n ==> ids[..n][i] == ids[i];
      match FirstIndex(c, ids[n])
      case Some(k) => rest + [c[k]]
      case None => rest
  }

  /** `RemoveItemsAtIds(ids)`: one `RemoveRange` of the matches and one
      notification, only when some id matched. */
  function RemoveAtIds(c: seq<Record>, ids: seq<string>): (seq<Record>, seq<Event>)
  {
    var m := MatchesFor(c, ids);
    if m == [] then (c, [])
    else
      var e := RemoveRange(c, m);
      (e.coll, [CollectionChanged(e.change)])
  }

  /** The effect of a local delete: the identities named leave the
      collection and all others stay; absent identities are ignored. */
  lemma RemoveAtIdsMembership(c: seq<Record>, ids: seq<string>)
    ensures forall id :: id in Ids(RemoveAtIds(c, ids).0) <==> id in Ids(c) && id !in ids
  {
    MatchesForIds(c, ids);
    var m := MatchesFor(c, ids);
    if m == [] {
      forall id | id in ids ensures id !in Ids(c) {
        var i :| 0 <= i < |ids| && ids[i] == id;
      }
    }
  }

  /** A local delete raises a single notice, carrying the removed records,
      exactly when one of the identities is present, and nothing otherwise. */
  lemma RemoveAtIdsNotice(c: seq<Record>, ids: seq<string>)
    ensures var evs := RemoveAtIds(c, ids).1;
      && ((exists i :: 0 <= i < |ids| && ids[i] in Ids(c)) <==> evs != [])
      && (evs != [] ==> evs == [CollectionChanged(Some(Removed(Matching(c, IdSet(MatchesFor(c, ids))))))])
  {
    var m := MatchesFor(c, ids);
    if m != [] {
      var x := m[0];
      assert x in m && x in c;
      assert x.id in Ids(c) by {
        var k :| 0 <= k < |c| && c[k] == x;
        assert Ids(c)[k] == x.id;
      }
    }
  }

  lemma {:induction false} MatchesForIds(c: seq<Record>, ids: seq<string>)
    ensures forall id :: id in IdSet(MatchesFor(c, ids)) <==> id in Ids(c) && id in ids
    decreases |ids|
  {
    if ids != [] {
      var n := |ids| - 1;
      MatchesForIds(c, ids[..n]);
      assert ids == ids[..n] + [ids[n]];
      var rest := MatchesFor(c, ids[..n]);
      match FirstIndex(c, ids[n])
      case Some(k) =>
        assert MatchesFor(c, ids) == rest + [c[k]];
        assert IdSet(rest + [c[k]]) == IdSet(rest) + {ids[n]};
      case None =>
    }
  }

  // ---------------------------------------------------------------------
  // Worked cases

  const R1 := Record("1", Stamp(0), Stamp(0), false, "v1")
  const R2 := Record("2", Stamp(0), Stamp(0), false, "v1")
  const R2Gone := Record("2", Stamp(1), Stamp(0), true, "v2")
  const R3 := Record("3", Stamp(1), Stamp(1), false, "v1")

  /** Collection ["1","2"], batch [2 deleted, 3 live]: the collection
      becomes ["1","3"] with one removal notice (for "2") and then one
      addition notice (for "3"). */
  lemma RemoveThenInsertCase(u: Updater)
    ensures Reconcile([R1, R2], [Some(R2Gone), Some(R3)], u) ==
      Reconciled([R1, R3], [CollectionChanged(Some(Removed([R2]))), CollectionChanged(Some(Added([R3], 1)))], true)
  {
    RemoveThenInsertScan(u);
    RemoveThenInsertRemoval();
  }

  lemma RemoveThenInsertScan(u: Updater)
    ensures ScanBatch([R1, R2], [Some(R2Gone), Some(R3)], u) == Scan([R1, R2], [R2Gone], [R3], false)
  {
    var c := [R1, R2];
    var batch := [Some(R2Gone), Some(R3)];
    var s0 := Scan(c, [], [], false);
    assert FirstIndex(c, "2") == Some(1);
    assert FirstIndex(c, "3") == None;
    var s1 := ScanItem(s0, Some(R2Gone), u);
    assert s1 == Scan(c, [R2Gone], [], false);
    assert ScanBatch(c, [Some(R2Gone)], u) == s1 by { assert [Some(R2Gone)][..0] == []; }
    var s2 := ScanItem(s1, Some(R3), u);
    assert s2 == Scan(c, [R2Gone], [R3], false);
    assert ScanBatch(c, batch, u) == s2 by { assert batch[..1] == [Some(R2Gone)]; }
  }

  lemma RemoveThenInsertRemoval()
    ensures RemoveRange([R1, R2], [R2Gone]) == Edit([R1], Some(Removed([R2])))
  {
    assert IdSet([R2Gone]) == {"2"};
    assert Matching([R1, R2], {"2"}) == [R2];
    assert Without([R1, R2], {"2"}) == [R1];
  }

  /** The same identity arriving twice, live, in one batch is inserted twice:
      the lookup does not see earlier items of the batch. */
  lemma DuplicateInsertCase(u: Updater)
    ensures Reconcile([], [Some(R3), Some(R3)], u).coll == [R3, R3]
  {
    var batch := [Some(R3), Some(R3)];
    var s1 := ScanItem(Scan([], [], [], false), Some(R3), u);
    assert s1 == Scan([], [], [R3], false);
    assert ScanBatch([], [Some(R3)], u) == s1 by { assert [Some(R3)][..0] == []; }
    assert ScanBatch([], batch, u) == Scan([], [], [R3, R3], false) by { assert batch[..1] == [Some(R3)]; }
  }

  /** Without ConsistentDeletion re-applying is not silent: a batch carrying
      "3" deleted and then live inserts "3" on an empty collection, and the
      second application removes it again. */
  lemma MixedBatchNotIdempotent(u: Updater)
    requires KeepsIds(u)
    ensures
      var batch := [Some(R3.(deleted := true)), Some(R3)];
      var r1 := Reconcile([], batch, u);
      r1.coll == [R3] && Reconcile(r1.coll, batch, u).events != []
  {
    var gone := R3.(deleted := true);
    var batch := [Some(gone), Some(R3)];
    assert batch[..1] == [Some(gone)] && [Some(gone)][..0] == [];
    var s1 := ScanItem(Scan([], [], [], false), Some(gone), u);
    assert s1 == Scan([], [], [], false);
    assert ScanBatch([], [Some(gone)], u) == s1;
    assert ScanBatch([], batch, u) == Scan([], [], [R3], false);
    assert FirstIndex([R3], "3") == Some(0);
    var t1 := ScanItem(Scan([R3], [], [], false), Some(gone), u);
    assert t1 == Scan([R3], [gone], [], false);
    assert ScanBatch([R3], [Some(gone)], u) == t1;
    assert ScanBatch([R3], batch, u).removals == [gone];
  }

  /** A local delete of an identity that is not there is silent. */
  lemma RemoveAbsentCase()
    ensures RemoveAtIds([R1, R2], ["9"]) == ([R1, R2], [])
  {
    assert FirstIndex([R1, R2], "9") == None;
    assert ["9"][..0] == [];
  }
}
