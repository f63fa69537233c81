/** The `settings` key-value table and its upsert handler (`POST /api/settings`). */
module Settings {
  import opened Request
  import opened Http

  /** The `settings` table: `key` is UNIQUE, so it is a map from key to value. */
  class SettingsTable {
    var entries: map<string, Value>

    constructor ()
      ensures entries == map[]
    {
      entries := map[];
    }

    /** Admin only; needs a non-empty key and a value that is not `undefined`
        (a falsy value such as `0`, `''` or `null` is accepted); then inserts
        the key or replaces its value. */
    method Upsert(isAdmin: bool, key: Option<string>, value: Option<Value>) returns (res: Result<()>)
      modifies this
      ensures !isAdmin ==> res == Err(Unauthorized) && entries == old(entries)
      ensures isAdmin && (!Present(key) || value.None?) ==> res == Err(BadRequest) && entries == old(entries)
      ensures res.Ok? <==> isAdmin && Present(key) && value.Some?
      ensures res.Ok? ==> key.value in entries && entries[key.value] == value.value
      ensures res.Ok? ==> forall k :: k != key.value ==> (k in entries <==> k in old(entries))
      ensures res.Ok? ==> forall k :: k in old(entries) && k != key.value ==> entries[k] == old(entries)[k]
      ensures res.Ok? && key.value in old(entries) ==> entries.Keys == old(entries).Keys
      ensures res.Ok? && key.value !in old(entries) ==> entries.Keys == old(entries).Keys + {key.value}
      ensures res.Ok? ==> |entries| == if key.value in old(entries) then |old(entries)| else |old(entries)| + 1
    {
      if !isAdmin {
        return Err(Unauthorized);
      }
      if !Present(key) || value.None? {
        return Err(BadRequest);
      }
      // INSERT ... ON CONFLICT(key) DO UPDATE SET value = excluded.value
      entries := entries[key.value := value.value];
      return Ok(());
    }
  }
}
