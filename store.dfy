/** The workout entries and the device store that keeps them. The store is
    modelled as one slot, the value of the key '@workout_log', holding the
    last list written there (JSON encoding is the identity on these
    records). Whether a write or a read fails is decided by the caller. */
module WorkoutStore {
  import opened JsArray

  /** One logged exercise. The tracker creates entries without a date; a
      missing date is None, and None equals None as `undefined` equals
      `undefined` under `!==`. */
  datatype Entry = Entry(
    exercise: string,
    sets: string,
    reps: string,
    weight: string,
    date: Option<string>)

  const LogKey := "@workout_log"

  /** The store's '@workout_log' slot: None until something was written. */
  class LogStore {
    var saved: Option<seq<Entry>>

    constructor ()
      ensures saved == None
    {
      saved := None;
    }

    /** `setItem('@workout_log', …)`: on success the slot holds exactly
        value, replacing whatever was there; on failure it is unchanged. */
    method Write(value: seq<Entry>, succeeds: bool) returns (ok: bool)
      modifies this
      ensures ok == succeeds
      ensures saved == if succeeds then Some(value) else old(saved)
    {
      ok := succeeds;
      if succeeds {
        saved := Some(value);
      }
    }

    /** `getItem('@workout_log')`: the stored list, None when nothing was
        stored or when the read fails. Nothing is changed. */
    method Read(succeeds: bool) returns (value: Option<seq<Entry>>)
      ensures value == if succeeds then saved else None
    {
      value := if succeeds then saved else None;
    }
  }
}
