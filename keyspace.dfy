/**
 * The keyspace the cache writer's connections reach, and the effect of each
 * store command the writer issues on it. An entry records its value and the
 * expiry (in milliseconds) it was given; the passing of time is not modelled.
 */
module Keyspace {
  import opened Base

  type Key = seq<byte>

  /** A stored value and the time to live it was last given, if any. */
  datatype Entry = Entry(value: seq<byte>, expiryMillis: Option<int>)

  type Store = map<Key, Entry>

  /** KEYS glob matching of a pattern against a key; left uninterpreted. */
  type Matcher = (seq<byte>, Key) -> bool

  /** SET key value [PX millis]: an upsert that replaces any earlier value and time to live. */
  function Set(s: Store, key: Key, value: seq<byte>, expiryMillis: Option<int>): (r: Store)
    ensures r.Keys == s.Keys + {key}
    ensures r[key].value == value && r[key].expiryMillis == expiryMillis
    ensures forall k :: k in s && k != key ==> r[k] == s[k]
  {
    s[key := Entry(value, expiryMillis)]
  }

  /** GET key: the stored bytes, or null when the key is absent. */
  function Get(s: Store, key: Key): (r: Option<seq<byte>>)
    ensures r.Some? <==> key in s
    ensures key in s ==> r.value == s[key].value
  {
    if key in s then Some(s[key].value) else None
  }

  /** SETNX key value: stores the value without expiry only when the key is absent; reports whether it did. */
  function SetNX(s: Store, key: Key, value: seq<byte>): (r: (Store, bool))
    ensures r.1 <==> key !in s
    ensures key in s ==> r.0 == s
    ensures key !in s ==> r.0.Keys == s.Keys + {key} && r.0[key] == Entry(value, None)
    ensures forall k :: k in s && k != key ==> k in r.0 && r.0[k] == s[k]
  {
    if key in s then (s, false) else (s[key := Entry(value, None)], true)
  }

  /** PEXPIRE key millis: gives an existing key a time to live; reports whether the key existed. */
  function PExpire(s: Store, key: Key, millis: int): (r: (Store, bool))
    ensures r.1 <==> key in s
    ensures r.0.Keys == s.Keys
    ensures key in s ==> r.0[key] == Entry(s[key].value, Some(millis))
    ensures forall k :: k in s && k != key ==> r.0[k] == s[k]
  {
    if key in s then (s[key := s[key].(expiryMillis := Some(millis))], true) else (s, false)
  }

  /** DEL key...: removes the named keys; answers how many of them existed. */
  function Del(s: Store, keys: set<Key>): (r: (Store, nat))
    ensures r.0.Keys == s.Keys - keys
    ensures forall k :: k in r.0 ==> r.0[k] == s[k]
    ensures keys !! s.Keys ==> r.0 == s && r.1 == 0
    ensures r.1 == |s.Keys * keys| && r.1 <= |keys|
  {
    SubsetCard(s.Keys * keys, keys);
    (s - keys, |s.Keys * keys|)
  }

  /** A subset is no larger than its superset. */
  lemma SubsetCard<T>(a: set<T>, b: set<T>)
    requires a <= b
    ensures |a| <= |b|
  {
    assert b == a + (b - a);
  }

  /** KEYS pattern: the keys present that match the pattern. */
  function KeysMatching(s: Store, pattern: seq<byte>, matches: Matcher): (r: set<Key>)
    ensures r <= s.Keys
    ensures forall k :: k in s && matches(pattern, k) ==> k in r
    ensures forall k :: k in r ==> matches(pattern, k)
  {
    set k | k in s && matches(pattern, k)
  }
}
