/** The key/value store the system storage layer dispatches to: an in-memory
    stand-in for the file-backed preferences object. Only the behaviour the
    storage layer relies on is modelled: a read that falls back to a default,
    and a write and a delete that refuse the empty key. */
module PreferencesStore {
  import opened PreferencesErrno

  newtype uint8 = x: int | 0 <= x < 256

  /** A string as the storage layer sees it: its UTF-8 bytes. */
  type Bytes = seq<uint8>

  /** The stored entries. */
  type Entries = map<Bytes, Bytes>

  /** The status a store write reports, together with the entries afterwards. */
  datatype Written = Written(code: int, entries: Entries)

  /** What a read returns: the stored value of a non-empty key that is
      present, and otherwise the caller's default. */
  function Lookup(entries: Entries, key: Bytes, def: Bytes): (v: Bytes)
    ensures key != [] && key in entries ==> v == entries[key]
    ensures key == [] || key !in entries ==> v == def
  {
    if key != [] && key in entries then entries[key] else def
  }

  /** A write: the empty key is refused with E_KEY_EMPTY and nothing changes;
      any other key is bound to the value, replacing what it had, and every
      other entry is kept. */
  function Put(entries: Entries, key: Bytes, value: Bytes): (r: Written)
    ensures r.code == E_OK <==> key != []
    ensures r.code != E_OK ==> r.code == E_KEY_EMPTY && r.entries == entries
    ensures r.code == E_OK ==> r.entries == entries[key := value]
  {
    if key == [] then Written(E_KEY_EMPTY, entries) else Written(E_OK, entries[key := value])
  }

  /** A delete: the empty key is refused with E_KEY_EMPTY and nothing changes;
      any other key is removed if present, every other entry is kept, and
      deleting an absent key succeeds without changing anything. */
  function Remove(entries: Entries, key: Bytes): (r: Written)
    ensures r.code == E_OK <==> key != []
    ensures r.code != E_OK ==> r.code == E_KEY_EMPTY && r.entries == entries
    ensures r.code == E_OK ==> r.entries == entries - {key}
    ensures key !in entries ==> r.entries == entries
  {
    if key == [] then Written(E_KEY_EMPTY, entries) else Written(E_OK, entries - {key})
  }

  /** The opened preferences object. */
  class Preferences {
    var entries: Entries

    method GetString(key: Bytes, def: Bytes) returns (v: Bytes)
      ensures v == Lookup(entries, key, def)
    {
      if key == [] {
        return def;
      }
      if key in entries {
        v := entries[key];
      } else {
        v := def;
      }
    }

    method PutString(key: Bytes, value: Bytes) returns (code: int)
      modifies this
      ensures Written(code, entries) == Put(old(entries), key, value)
    {
      if key == [] {
        return E_KEY_EMPTY;
      }
      entries := entries[key := value];
      code := E_OK;
    }

    method Delete(key: Bytes) returns (code: int)
      modifies this
      ensures Written(code, entries) == Remove(old(entries), key)
    {
      if key == [] {
        return E_KEY_EMPTY;
      }
      entries := entries - {key};
      code := E_OK;
    }

    method Clear() returns (code: int)
      modifies this
      ensures code == E_OK && entries == map[]
    {
      entries := map[];
      code := E_OK;
    }
  }
}
