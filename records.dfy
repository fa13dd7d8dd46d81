/** The record shape every live table holds (IBaseModel / IBaseModel<T>). */
module Records {

  /** A DateTimeOffset; the model never looks inside it. */
  datatype Stamp = Stamp(ticks: int)

  /** One entity of a table: its identity, the two timestamps, the
      soft-delete flag and the opaque version token. */
  datatype Record = Record(
    id: string,
    updatedAt: Stamp,
    createdAt: Stamp,
    deleted: bool,
    version: string)

  /** `UpdateFrom(model)`: the application's in-place update of a record from
      another one, left uninterpreted; the first argument is the record being
      updated, the second the one it is updated from. */
  type Updater = (Record, Record) -> Record

  /** An assumption the reconciliation lemmas take, not a promise of the
      record contract (whose `Id` is settable): an update never changes the
      `Id` of the record it updates. */
  ghost predicate KeepsIds(u: Updater)
  {
    forall a: Record, b: Record :: u(a, b).id == a.id
  }
}
