/** The in-memory side of the bot's persistent store (`DataStorage` in
    database.py): a two-level dictionary, first by data key ("warnings",
    "bad_words", "mod_logs", ...) and then by group id. The JSON file behind
    it is not part of this model. The store is heterogeneous in the source;
    here one store holds values of one type V, and `empty` stands for the
    `{}` a missing group reads as. */
module Storage {

  /** Python's `d.get(k, default)`. */
  function Get<K, V>(d: map<K, V>, k: K, default: V): (r: V)
    ensures k in d ==> r == d[k]
    ensures k !in d ==> r == default
  {
    if k in d then d[k] else default
  }

  /** What `get_guild_data` returns for `data`. */
  function Lookup<V>(data: map<string, map<string, V>>, guildId: string, key: string, empty: V): V
  {
    if key in data then Get(data[key], guildId, empty) else empty
  }

  /** The first step of both accessors: make sure `key` exists. */
  function EnsureKey<V>(data: map<string, map<string, V>>, key: string): (r: map<string, map<string, V>>)
    ensures key in r && r.Keys == data.Keys + {key}
    ensures forall k :: k in data ==> r[k] == data[k]
    ensures key !in data ==> r[key] == map[]
  {
    if key in data then data else data[key := map[]]
  }

  /** The store after `set_guild_data`. */
  function Stored<V>(data: map<string, map<string, V>>, guildId: string, key: string, value: V): (r: map<string, map<string, V>>)
  {
    var d := EnsureKey(data, key);
    d[key := d[key][guildId := value]]
  }

  /** Reading back a written value gives that value. */
  lemma {:induction false} ReadAfterWrite<V>(data: map<string, map<string, V>>, guildId: string, key: string, value: V, empty: V)
    ensures Lookup(Stored(data, guildId, key, value), guildId, key, empty) == value
  {
  }

  /** A write touches one (key, group) cell and no other. */
  lemma {:induction false} WriteIsolated<V>(data: map<string, map<string, V>>, guildId: string, key: string, value: V,
                                            g: string, k: string, empty: V)
    requires g != guildId || k != key
    ensures Lookup(Stored(data, guildId, key, value), g, k, empty) == Lookup(data, g, k, empty)
  {
    var d := EnsureKey(data, key);
    if k != key && k in data {
      assert Stored(data, guildId, key, value)[k] == data[k];
    }
  }

  /** Creating a missing key does not change what any read returns. */
  lemma {:induction false} EnsureKeyInvisible<V>(data: map<string, map<string, V>>, key: string, g: string, k: string, empty: V)
    ensures Lookup(EnsureKey(data, key), g, k, empty) == Lookup(data, g, k, empty)
  {
  }

  /** Writing after the key was created is writing to the original store. */
  lemma {:induction false} StoredAfterEnsureKey<V>(data: map<string, map<string, V>>, guildId: string, key: string, value: V)
    ensures Stored(EnsureKey(data, key), guildId, key, value) == Stored(data, guildId, key, value)
  {
  }

  class DataStorage<V> {
    var data: map<string, map<string, V>>

    constructor ()
      ensures data == map[]
    {
      data := map[];
    }

    /** `get_guild_data`: creates the key if missing, then reads the group's
        value, `empty` when the group has none. The value is not stored. */
    method GetGuildData(guildId: string, key: string, empty: V) returns (r: V)
      modifies this
      ensures data == EnsureKey(old(data), key)
      ensures r == Lookup(old(data), guildId, key, empty)
    {
      if key !in data {
        data := data[key := map[]];
      }
      r := Get(data[key], guildId, empty);
    }

    /** `set_guild_data`: stores `value` for the group under `key`. */
    method SetGuildData(guildId: string, key: string, value: V)
      modifies this
      ensures data == Stored(old(data), guildId, key, value)
    {
      if key !in data {
        data := data[key := map[]];
      }
      data := data[key := data[key][guildId := value]];
    }
  }
}
