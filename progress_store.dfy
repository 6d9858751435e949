/** The progress table (its-tutor.py, init_db / update_db / get_progress),
    abstracted as an in-memory map from row id to the stored counter pair.
    The program only ever touches the row with id 1. */
module ProgressStore {

  /** One row: the correct and incorrect counts. */
  datatype Progress = Progress(correct: nat, incorrect: nat)

  type Table = map<int, Progress>

  const RowId: int := 1
  const Zero: Progress := Progress(0, 0)

  /** init_db: `INSERT OR IGNORE` of (1, 0, 0). An existing row 1 is kept
      as it is; a missing one becomes (0, 0); no other row is touched. */
  function Init(t: Table): (r: Table)
    ensures r.Keys == t.Keys + {RowId}
    ensures forall id :: id in t ==> r[id] == t[id]
    ensures RowId !in t ==> r[RowId] == Zero
  {
    if RowId in t then t else t[RowId := Zero]
  }

  /** update_db: `UPDATE ... WHERE id = 1` with the given counters. When
      row 1 is missing the statement matches nothing and the table is
      unchanged. */
  function Update(t: Table, p: Progress): (r: Table)
    ensures r.Keys == t.Keys
    ensures forall id :: id in t && id != RowId ==> r[id] == t[id]
    ensures RowId in t ==> r[RowId] == p
  {
    if RowId in t then t[RowId := p] else t
  }

  /** get_progress: row 1, or (0, 0) when there is none. */
  function Get(t: Table): (p: Progress)
    ensures RowId in t ==> p == t[RowId]
    ensures RowId !in t ==> p == Zero
  {
    if RowId in t then t[RowId] else Zero
  }

  /** Calling init_db twice is the same as calling it once. */
  lemma InitIdempotent(t: Table)
    ensures Init(Init(t)) == Init(t)
  {
  }

  /** init_db never changes what get_progress reports. */
  lemma GetAfterInit(t: Table)
    ensures Get(Init(t)) == Get(t)
  {
  }

  /** Once the table is initialised, an update round-trips through
      get_progress. Without row 1 the update is lost. */
  lemma GetAfterUpdate(t: Table, p: Progress)
    ensures RowId in t ==> Get(Update(t, p)) == p
    ensures RowId !in t ==> Get(Update(t, p)) == Zero
    ensures Get(Update(Init(t), p)) == p
  {
  }

  /** The init_db at the start of every later pass leaves an updated row
      alone. */
  lemma InitAfterUpdate(t: Table, p: Progress)
    ensures Init(Update(Init(t), p)) == Update(Init(t), p)
  {
  }
}
