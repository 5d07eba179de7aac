/** The normalised transaction record shared by every part of the engine. */
module Records {

  datatype Option<+T> = None | Some(value: T)

  /** The transaction names the engine tells apart; every other name behaves alike. */
  datatype TxKind = FileCreate | FileAppend | FileDelete | EthereumTransaction | Other

  /** An `entity_id` as the mirror node reports it: a string such as "0.0.1234", or absent. */
  type EntityId = Option<string>

  /** One record: consensus time (whole time units), transaction name and entity. */
  datatype Tx = Tx(timestamp: int, kind: TxKind, entity: EntityId)

  /** Python truthiness of an entity id: both `None` and the empty string are falsy. */
  predicate Falsy(e: EntityId) {
    e.None? || e.value == ""
  }

  /** The two grouping policies: entity id only, or entity id within a time window. */
  datatype Policy = EntityOnly | TimeWindowed(window: int)

  /** The default window of the windowed variant, in seconds. */
  const DefaultTimeWindow: int := 30

  /** Types the collector filters by entity id. */
  predicate IsAppendOrDelete(k: TxKind) {
    k == FileAppend || k == FileDelete
  }

  /** Types whose entity ids the validator compares. */
  predicate IsFileOp(k: TxKind) {
    k == FileCreate || IsAppendOrDelete(k)
  }
}
