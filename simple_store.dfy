/**
 * The namespaced simple store handed out for a `kind`: every key it reads,
 * writes or deletes in the shared key-value database is the key prefixed with
 * `kind + "-"`, and key listings keep only the prefixed keys, with the prefix
 * stripped. The prefix does not separate kinds from each other: a kind that
 * itself holds a `-` can reach the keys of another kind.
 */
module SimpleStore {
  import opened Wrappers

  /** The namespace of a kind: `${kind}-`. */
  function Prefix(kind: string): string
  {
    kind + "-"
  }

  /** The database key that `key` of `kind` is stored under. */
  function StoredKey(kind: string, key: string): string
  {
    Prefix(kind) + key
  }

  /** Within one kind, distinct keys are stored under distinct database keys. */
  lemma {:induction false} StoredKeyInjective(kind: string, k1: string, k2: string)
    ensures StoredKey(kind, k1) == StoredKey(kind, k2) <==> k1 == k2
  {
    if StoredKey(kind, k1) == StoredKey(kind, k2) {
      assert k1 == StoredKey(kind, k1)[|Prefix(kind)|..];
      assert k2 == StoredKey(kind, k2)[|Prefix(kind)|..];
    }
  }

  /** Across kinds there is no such separation: kind "a" with key "b-c" and kind "a-b" with key "c" share an entry. */
  lemma {:induction false} KindsCanCollide()
    ensures StoredKey("a", "b-c") == StoredKey("a-b", "c")
  {
  }

  /** What `get(key)` of `kind` yields over the database entries: the stored value, or nothing. */
  function Lookup<V>(entries: map<string, V>, kind: string, key: string): Option<V>
  {
    if StoredKey(kind, key) in entries then Some(entries[StoredKey(kind, key)]) else None
  }

  /** After `set(key, v)`, `get(key)` of the same kind yields `v`; other keys of that kind are unaffected. */
  lemma {:induction false} SetThenGet<V>(entries: map<string, V>, kind: string, key: string, v: V, other: string)
    requires other != key
    ensures Lookup(entries[StoredKey(kind, key) := v], kind, key) == Some(v)
    ensures Lookup(entries[StoredKey(kind, key) := v], kind, other) == Lookup(entries, kind, other)
  {
    StoredKeyInjective(kind, key, other);
  }

  /** After `delete(key)`, `get(key)` yields nothing; other keys of that kind are unaffected. */
  lemma {:induction false} DeleteThenGet<V>(entries: map<string, V>, kind: string, key: string, other: string)
    requires other != key
    ensures Lookup(entries - {StoredKey(kind, key)}, kind, key) == None
    ensures Lookup(entries - {StoredKey(kind, key)}, kind, other) == Lookup(entries, kind, other)
  {
    StoredKeyInjective(kind, key, other);
  }

  /** JavaScript's `s.startsWith(prefix)`. */
  predicate StartsWith(s: string, prefix: string)
  {
    |prefix| <= |s| && s[..|prefix|] == prefix
  }

  /**
   * The listing pipeline of `keys`: keep the raw keys that start with
   * `prefix`, in order, and cut the prefix off each.
   */
  function StripPrefixed(prefix: string, raw: seq<string>): (r: seq<string>)
    ensures |r| <= |raw|
    decreases |raw|
  {
    if raw == [] then []
    else if StartsWith(raw[0], prefix) then [raw[0][|prefix|..]] + StripPrefixed(prefix, raw[1..])
    else StripPrefixed(prefix, raw[1..])
  }

  /**
   * A key is listed exactly when the prefixed key is among the raw keys; in
   * particular every listed key with the prefix put back is a raw key.
   */
  lemma {:induction false} StripPrefixedMembers(prefix: string, raw: seq<string>, x: string)
    ensures x in StripPrefixed(prefix, raw) <==> prefix + x in raw
    decreases |raw|
  {
    if raw != [] {
      StripPrefixedMembers(prefix, raw[1..], x);
      var e := raw[0];
      if StartsWith(e, prefix) {
        assert prefix + e[|prefix|..] == e;
        if prefix + x == e {
          assert (prefix + x)[|prefix|..] == x;
        }
      } else {
        assert (prefix + x)[..|prefix|] == prefix;
      }
      assert prefix + x in raw <==> prefix + x == e || prefix + x in raw[1..];
    }
  }

  /** The listing keeps relative order: listing a concatenation lists each part in turn. */
  lemma {:induction false} StripPrefixedAppend(prefix: string, a: seq<string>, b: seq<string>)
    ensures StripPrefixed(prefix, a + b) == StripPrefixed(prefix, a) + StripPrefixed(prefix, b)
    decreases |a|
  {
    if a == [] {
      assert a + b == b;
    } else {
      assert (a + b)[0] == a[0];
      assert (a + b)[1..] == a[1..] + b;
      StripPrefixedAppend(prefix, a[1..], b);
    }
  }

  /** Every listed key, with the prefix put back, is one of the raw keys. */
  lemma {:induction false} StripPrefixedOrigins(prefix: string, raw: seq<string>)
    ensures forall i :: 0 <= i < |StripPrefixed(prefix, raw)| ==> prefix + StripPrefixed(prefix, raw)[i] in raw
  {
    forall i | 0 <= i < |StripPrefixed(prefix, raw)|
      ensures prefix + StripPrefixed(prefix, raw)[i] in raw
    {
      StripPrefixedMembers(prefix, raw, StripPrefixed(prefix, raw)[i]);
    }
  }

  /** The shared key-value database: `get`, `set` and `del` on string keys. */
  class KeyValueDB<V> {
    var entries: map<string, V>

    constructor ()
      ensures entries == map[]
    {
      entries := map[];
    }

    method Get(key: string) returns (v: Option<V>)
      ensures v.Some? <==> key in entries
      ensures v.Some? ==> v.value == entries[key]
    {
      v := if key in entries then Some(entries[key]) else None;
    }

    method Set(key: string, value: V)
      modifies this
      ensures entries == old(entries)[key := value]
    {
      entries := entries[key := value];
    }

    method Del(key: string)
      modifies this
      ensures entries == old(entries) - {key}
    {
      entries := entries - {key};
    }
  }

  /** The plug-in core, whose `kvDB` field the store reads at every call. */
  class Core<V> {
    var kvDB: KeyValueDB<V>

    constructor (db: KeyValueDB<V>)
      ensures kvDB == db
    {
      kvDB := db;
    }
  }

  /** The store object returned for one `kind`. */
  class SimpleStore<V> {
    const core: Core<V>
    const kind: string
    const prefix: string := Prefix(kind)

    /** Building the store for `kind` fixes its prefix. */
    constructor (core: Core<V>, kind: string)
      ensures this.core == core && this.kind == kind && prefix == Prefix(kind)
    {
      this.core := core;
      this.kind := kind;
    }

    /** `get(key)`: the value stored under the prefixed key, if any. */
    method Get(key: string) returns (v: Option<V>)
      ensures v == Lookup(core.kvDB.entries, kind, key)
      ensures v.Some? <==> StoredKey(kind, key) in core.kvDB.entries
    {
      v := core.kvDB.Get(prefix + key);
    }

    /** `set(key, value)`: store under the prefixed key; every other entry is kept. */
    method Set(key: string, value: V)
      modifies core.kvDB
      ensures core.kvDB.entries == old(core.kvDB.entries)[StoredKey(kind, key) := value]
      ensures Lookup(core.kvDB.entries, kind, key) == Some(value)
    {
      core.kvDB.Set(prefix + key, value);
    }

    /** `delete(key)`: remove the prefixed key; every other entry is kept. */
    method Delete(key: string)
      modifies core.kvDB
      ensures core.kvDB.entries == old(core.kvDB.entries) - {StoredKey(kind, key)}
      ensures Lookup(core.kvDB.entries, kind, key) == None
    {
      core.kvDB.Del(prefix + key);
    }

    /**
     * `keys(from, to, count)` given the raw keys the database returned for the
     * prefixed range: those of this kind, prefix stripped, in order.
     */
    method Keys(raw: seq<string>) returns (keys: seq<string>)
      ensures keys == StripPrefixed(Prefix(kind), raw)
      ensures forall x :: x in keys <==> Prefix(kind) + x in raw
    {
      keys := StripPrefixed(prefix, raw);
      forall x ensures x in keys <==> Prefix(kind) + x in raw {
        StripPrefixedMembers(prefix, raw, x);
      }
    }
  }
}
