/** The records the draw engine works with. */
module Types {

  /** The four prize levels, from the lowest to the top one. */
  datatype PrizeLevel = Third | Second | First | Grand

  /** The static description of one prize level; only `count` (the quota) drives the engine;
      `displayLabel` is the source's `label` field, renamed because `label` is a Dafny keyword. */
  datatype PrizeConfig = PrizeConfig(id: PrizeLevel, displayLabel: string, count: nat, color: string, icon: string)

  /** A committed draw: who won, at which level, and the clock reading when it was committed. */
  datatype Winner = Winner(name: string, level: PrizeLevel, timestamp: int)

  /** A nullable reference (`T | null`). */
  datatype Option<T> = None | Some(value: T)
}
