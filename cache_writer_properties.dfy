/**
 * What the cache writer's operations promise, stated over the effects in
 * CacheWriter and proved: put against get, putIfAbsent against a get followed by a
 * conditional put, remove, and the two clean strategies against each other.
 */
module CacheWriterProperties {
  import opened Base
  import opened Keyspace
  import opened CacheWriter

  /** After put, get answers the value put; the entry expires exactly when the ttl applies. */
  lemma PutThenGet(s: Store, key: Key, value: seq<byte>, ttl: Option<Duration>)
    ensures var s' := Keyspace.Set(s, key, value, TtlMillis(ttl));
      && Keyspace.Get(s', key) == Some(value)
      && (s'[key].expiryMillis.Some? <==> ttl.Some? && !ttl.value.IsZero() && !ttl.value.IsNegative())
      && (s'[key].expiryMillis.Some? ==> s'[key].expiryMillis.value == ttl.value.nanos / 1_000_000)
      && forall k :: k != key ==> Keyspace.Get(s', k) == Keyspace.Get(s, k)
  {
  }

  /** A positive time to live under one millisecond still applies, with an expiry of 0 ms. */
  lemma SubMillisecondTtl(nanos: int)
    requires 0 < nanos < 1_000_000
    ensures ShouldExpireWithin(Some(Duration(nanos)))
    ensures TtlMillis(Some(Duration(nanos))) == Some(0)
  {
  }

  /**
   * putIfAbsent's script does in one step what a get followed, on a miss, by a put
   * with the same ttl would do: on an absent key it stores as put does and answers
   * null; on a present key it changes nothing and answers the current value.
   */
  lemma PutIfAbsentIsGetThenPut(s: Store, key: Key, value: seq<byte>, ttl: Option<Duration>)
    ensures PutIfAbsentScript(s, key, value, TtlMillis(ttl)) ==
      if Keyspace.Get(s, key).None? then (Keyspace.Set(s, key, value, TtlMillis(ttl)), None)
      else (s, Keyspace.Get(s, key))
  {
  }

  /**
   * Two putIfAbsent calls on an absent key, one after the other: the first stores its
   * value and answers null, the second answers the first value and changes nothing.
   */
  lemma PutIfAbsentFirstCallerWins(s: Store, key: Key, first: seq<byte>, second: seq<byte>, ttl1: Option<Duration>, ttl2: Option<Duration>)
    requires key !in s
    ensures var (s1, r1) := PutIfAbsentScript(s, key, first, TtlMillis(ttl1));
      var (s2, r2) := PutIfAbsentScript(s1, key, second, TtlMillis(ttl2));
      && r1 == None && r2 == Some(first) && s2 == s1 && Keyspace.Get(s2, key) == Some(first)
  {
  }

  /** remove deletes only its key, is a no-op on an absent key, and removing twice is removing once. */
  lemma RemoveOnlyTouchesItsKey(s: Store, key: Key)
    ensures var s' := Keyspace.Del(s, {key}).0;
      && Keyspace.Get(s', key) == None
      && (forall k :: k != key ==> Keyspace.Get(s', k) == Keyspace.Get(s, k))
      && (key !in s ==> s' == s)
      && Keyspace.Del(s', {key}).0 == s'
  {
  }

  /** After a non-locking clean no matching key is left, and every other entry is as it was. */
  lemma NonLockingCleanRemovesEveryMatch(s: Store, pattern: seq<byte>, matches: Matcher)
    ensures var s' := NonLockingClean(s, Some(KeysMatching(s, pattern, matches)));
      && (forall k :: k in s' ==> !matches(pattern, k))
      && (forall k :: k in s && !matches(pattern, k) ==> k in s' && s'[k] == s[k])
      && NonLockingClean(s', Some(KeysMatching(s', pattern, matches))) == s'
  {
    var s' := NonLockingClean(s, Some(KeysMatching(s, pattern, matches)));
    assert KeysMatching(s', pattern, matches) == {};
  }

  /** The locking clean deletes at most one key, a matching one, and nothing when nothing matches. */
  lemma LockingCleanDeletesAtMostOne(s: Store, s': Store, pattern: seq<byte>, matches: Matcher)
    requires LockingClean(s, s', KeysMatching(s, pattern, matches))
    ensures s'.Keys <= s.Keys && forall k :: k in s' ==> s'[k] == s[k]
    ensures KeysMatching(s, pattern, matches) == {} ==> s' == s
    ensures KeysMatching(s, pattern, matches) != {} ==>
      exists k :: k in s && matches(pattern, k) && s'.Keys == s.Keys - {k}
  {
    var matching := KeysMatching(s, pattern, matches);
    var reply :| IsListing(reply, matching) && s' == CleanScript(s, reply).0;
    if matching == {} {
      assert |reply| == 0;
    } else {
      assert reply[0] in matching;
    }
  }

  /** When at most one key matches, the two clean strategies leave the same keyspace. */
  lemma CleanStrategiesAgreeOnOneMatch(s: Store, s': Store, pattern: seq<byte>, matches: Matcher)
    requires |KeysMatching(s, pattern, matches)| <= 1
    requires LockingClean(s, s', KeysMatching(s, pattern, matches))
    ensures s' == NonLockingClean(s, Some(KeysMatching(s, pattern, matches)))
  {
    var matching := KeysMatching(s, pattern, matches);
    var reply :| IsListing(reply, matching) && s' == CleanScript(s, reply).0;
    if |matching| == 1 {
      assert reply[0] in matching;
      assert matching == {reply[0]};
    }
  }

  /**
   * The locking clean as written: when two or more keys match, some matching key
   * survives the call.
   */
  lemma LockingCleanLeavesAMatch(s: Store, s': Store, pattern: seq<byte>, matches: Matcher)
    requires |KeysMatching(s, pattern, matches)| >= 2
    requires LockingClean(s, s', KeysMatching(s, pattern, matches))
    ensures exists k :: k in s' && matches(pattern, k)
  {
    var matching := KeysMatching(s, pattern, matches);
    var reply :| IsListing(reply, matching) && s' == CleanScript(s, reply).0;
    assert reply[1] in matching && reply[1] != reply[0];
    assert reply[1] in s';
  }

  /**
   * The clean script as intended, on the KEYS reply for the pattern: it leaves what the
   * non-locking clean leaves, so no matching key survives.
   */
  lemma IntendedCleanRemovesEveryMatch(s: Store, pattern: seq<byte>, matches: Matcher, reply: seq<Key>)
    requires IsListing(reply, KeysMatching(s, pattern, matches))
    ensures CleanScriptIntended(s, reply).0 == NonLockingClean(s, Some(KeysMatching(s, pattern, matches)))
    ensures forall k :: k in CleanScriptIntended(s, reply).0 ==> !matches(pattern, k)
  {
    assert (set k | k in reply) == KeysMatching(s, pattern, matches);
  }

  /**
   * Two putIfAbsent calls through the writer on an absent key: the first stores its
   * value and answers null, the second answers the first value and leaves it stored;
   * each call opens and closes one connection.
   */
  method PutIfAbsentTwice(writer: DefaultRedisCacheWriter, name: string, key: Key, first: seq<byte>, second: seq<byte>, ttl: Option<Duration>)
    returns (r1: Result<Option<seq<byte>>, Exception>, r2: Result<Option<seq<byte>>, Exception>)
    requires key !in writer.connectionFactory.keyspace
    modifies writer.connectionFactory`keyspace, writer.connectionFactory`trace
    ensures r1 == Success(None) && r2 == Success(Some(first))
    ensures Keyspace.Get(writer.connectionFactory.keyspace, key) == Some(first)
    ensures writer.connectionFactory.trace == old(writer.connectionFactory.trace)
      + [Opened, PutIfAbsentEval(key, first, TtlMillis(ttl)), Closed]
      + [Opened, PutIfAbsentEval(key, second, TtlMillis(ttl)), Closed]
  {
    r1 := writer.PutIfAbsent(Some(name), Some(key), Some(first), ttl, false);
    r2 := writer.PutIfAbsent(Some(name), Some(key), Some(second), ttl, false);
  }
}
