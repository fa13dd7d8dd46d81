/** LiveCollectionStore: a local store whose writes, once the underlying
    store has committed them, are relayed to the live table registered under
    the same table name. The underlying store's write is a parameter: whether
    it committed or threw. */
module LiveStore {
  import opened Common
  import opened Records
  import opened LiveSpec
  import opened LiveTables

  /** How a store write ends: normally, by the underlying write throwing
      (nothing is relayed), or by the relay throwing after the write. */
  datatype WriteOutcome = Completed | BaseWriteFailed | RelayFailed

  /** `UpsertAsync(tableName, items, ...)`: the base upsert, then
      `ProcessJObjects(items)` on the live table of that name, if any. */
  method UpsertAsync(registry: Registry, tableName: string, items: seq<Option<Record>>, baseWriteSucceeded: bool)
    returns (outcome: WriteOutcome)
    requires tableName in registry.tables ==> registry.tables[tableName].Valid()
    modifies if tableName in registry.tables then {registry.tables[tableName]} else {}
    ensures registry.tables == old(registry.tables)
    ensures !baseWriteSucceeded ==> outcome == BaseWriteFailed
    ensures baseWriteSucceeded && tableName !in registry.tables ==> outcome == Completed
    ensures tableName in registry.tables ==>
      var t := registry.tables[tableName];
      var r := Reconcile(old(t.collection), items, t.updateFrom);
      && t.Valid()
      && t.pending == old(t.pending) && t.pulling == old(t.pulling)
      && t.isLoading == old(t.isLoading) && t.pullCount == old(t.pullCount)
      && (!baseWriteSucceeded ==> t.collection == old(t.collection) && t.events == old(t.events))
      && (baseWriteSucceeded ==>
            && t.collection == r.coll && t.events == old(t.events) + r.events
            && outcome == (if r.ok then Completed else RelayFailed))
  {
    if !baseWriteSucceeded {
      return BaseWriteFailed;
    }
    var found := registry.Lookup(tableName);
    match found {
      case None =>
        outcome := Completed;
      case Some(t) =>
        var ok := t.ProcessJObjects(items);
        outcome := if ok then Completed else RelayFailed;
    }
  }

  /** `DeleteAsync(tableName, ids)`: the base delete, then
      `RemoveItemsAtIds(ids)` on the live table of that name, if any. */
  method DeleteAsync(registry: Registry, tableName: string, ids: seq<string>, baseWriteSucceeded: bool)
    returns (outcome: WriteOutcome)
    requires tableName in registry.tables ==> registry.tables[tableName].Valid()
    modifies if tableName in registry.tables then {registry.tables[tableName]} else {}
    ensures registry.tables == old(registry.tables)
    ensures outcome == if baseWriteSucceeded then Completed else BaseWriteFailed
    ensures tableName in registry.tables ==>
      var t := registry.tables[tableName];
      var r := RemoveAtIds(old(t.collection), ids);
      && t.Valid()
      && t.pending == old(t.pending) && t.pulling == old(t.pulling)
      && t.isLoading == old(t.isLoading) && t.pullCount == old(t.pullCount)
      && (!baseWriteSucceeded ==> t.collection == old(t.collection) && t.events == old(t.events))
      && (baseWriteSucceeded ==> t.collection == r.0 && t.events == old(t.events) + r.1)
  {
    if !baseWriteSucceeded {
      return BaseWriteFailed;
    }
    var found := registry.Lookup(tableName);
    match found {
      case None =>
      case Some(t) =>
        t.RemoveItemsAtIds(ids);
    }
    outcome := Completed;
  }

  /** `DeleteAsync(query)`: a delete by query is not relayed; no live table
      is told, so a live collection keeps the records it deleted. */
  method DeleteByQueryAsync(registry: Registry, baseWriteSucceeded: bool) returns (outcome: WriteOutcome)
    ensures outcome == if baseWriteSucceeded then Completed else BaseWriteFailed
  {
    outcome := if baseWriteSucceeded then Completed else BaseWriteFailed;
  }
}
