/** The record shapes shared by the renderer and the database (`HistoryEntry`, `MemorySlot`). */
module Types {
  import opened Wrappers
  import opened CalculationEngine

  /** A row of the history table; the id is missing until the row is stored. */
  datatype HistoryEntry = HistoryEntry(
    id: Option<int>,
    expression: string,
    result: string,
    mode: Mode,
    timestamp: int,
    isPinned: int)

  /** A row of the memory table. */
  datatype MemorySlot = MemorySlot(slotName: string, value: string)
}
