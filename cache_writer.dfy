/**
 * DefaultRedisCacheWriter: put, get, putIfAbsent, remove and clean against the
 * keyspace, each through a connection that is acquired from the connection
 * factory and always closed again.
 *
 * The connection factory holds the keyspace and a ghost trace of what happened on
 * its connections (opened, each store command, closed), so that contracts can say
 * which commands an operation issued and that the connection was released.
 */
module CacheWriter {
  import opened Base
  import opened Keyspace

  const CONNECTION_FACTORY_NOT_NULL := "ConnectionFactory must not be null!"
  const SLEEP_TIME_NOT_NULL := "SleepTime must not be null!"
  const NAME_NOT_NULL := "Name must not be null!"
  const KEY_NOT_NULL := "Key must not be null!"
  const VALUE_NOT_NULL := "Value must not be null!"
  const PATTERN_NOT_NULL := "Pattern must not be null!"

  /** A java.time.Duration, as a signed number of nanoseconds. */
  datatype Duration = Duration(nanos: int) {
    predicate IsZero() { nanos == 0 }
    predicate IsNegative() { nanos < 0 }

    /**
     * Duration.toMillis: the nanoseconds divided by one million with Java's integer
     * division, which truncates toward zero. A positive duration under 1 ms gives 0.
     */
    function ToMillis(): (r: int)
      ensures nanos >= 0 ==> r * 1_000_000 <= nanos < (r + 1) * 1_000_000
      ensures nanos < 0 ==> (r - 1) * 1_000_000 < nanos <= r * 1_000_000
    {
      if nanos >= 0 then nanos / 1_000_000 else -((-nanos) / 1_000_000)
    }
  }

  /** Duration.ZERO */
  const ZERO := Duration(0)

  /** A time to live applies only when it is given, not zero and not negative. */
  function ShouldExpireWithin(ttl: Option<Duration>): (b: bool)
    ensures b <==> ttl.Some? && ttl.value.nanos > 0
  {
    ttl.Some? && !ttl.value.IsZero() && !ttl.value.IsNegative()
  }

  /** The nullable `ttlMillis` computed by putIfAbsent, and the expiration put passes to SET. */
  function TtlMillis(ttl: Option<Duration>): (r: Option<int>)
    ensures r.Some? <==> ShouldExpireWithin(ttl)
    ensures r.Some? ==> r.value == ttl.value.ToMillis() && r.value >= 0
  {
    if ShouldExpireWithin(ttl) then Some(ttl.value.ToMillis()) else None
  }

  /**
   * The effect of putIfAbsent's script: SETNX; when that stored the value and a
   * time to live was passed, PEXPIRE; answer nil. When the key was already there,
   * answer GET of its current value.
   */
  function PutIfAbsentScript(s: Store, key: Key, value: seq<byte>, ttlMillis: Option<int>): (r: (Store, Option<seq<byte>>))
    ensures key !in s ==> r.1 == None && r.0 == Keyspace.Set(s, key, value, ttlMillis)
    ensures key in s ==> r.1 == Some(s[key].value) && r.0 == s
  {
    var (afterSetNX, stored) := Keyspace.SetNX(s, key, value);
    if stored then
      var afterExpire := if ttlMillis.Some? then Keyspace.PExpire(afterSetNX, key, ttlMillis.value).0 else afterSetNX;
      (afterExpire, None)
    else
      (afterSetNX, Keyspace.Get(afterSetNX, key))
  }

  /**
   * The effect of the locking clean's script, given the KEYS reply: the script binds
   * only the first key of the reply, deletes that one key and answers DEL's count;
   * with an empty reply it deletes nothing and answers 0.
   */
  function CleanScript(s: Store, reply: seq<Key>): (r: (Store, int))
    ensures |reply| == 0 ==> r == (s, 0)
    ensures |reply| > 0 ==> r.0.Keys == s.Keys - {reply[0]} && r.1 == (if reply[0] in s then 1 else 0)
    ensures forall k :: k in r.0 ==> r.0[k] == s[k]
  {
    if |reply| == 0 then (s, 0)
    else
      var (afterDel, count) := Keyspace.Del(s, {reply[0]});
      assert s.Keys * {reply[0]} == if reply[0] in s then {reply[0]} else {};
      (afterDel, count)
  }

  /**
   * The locking clean's script as evidently intended: DEL of every key in the KEYS
   * reply, answering DEL's count; with an empty reply it deletes nothing and answers 0.
   */
  function CleanScriptIntended(s: Store, reply: seq<Key>): (r: (Store, int))
    ensures r.0.Keys == s.Keys - (set k | k in reply)
    ensures forall k :: k in r.0 ==> r.0[k] == s[k]
    ensures |reply| == 0 ==> r == (s, 0)
  {
    if |reply| == 0 then (s, 0)
    else
      var (afterDel, count) := Keyspace.Del(s, set k | k in reply);
      (afterDel, count)
  }

  /** The locking clean as the store runs it: the script applied to some KEYS reply listing `matching`. */
  ghost predicate LockingClean(s: Store, s': Store, matching: set<Key>)
  {
    exists reply :: IsListing(reply, matching) && s' == CleanScript(s, reply).0
  }

  /**
   * The effect of the non-locking clean, given the KEYS reply (null counts as no
   * keys): DEL of exactly the keys found, and no command at all when there are none.
   */
  function NonLockingClean(s: Store, found: Option<set<Key>>): (r: Store)
    ensures found.Some? ==> r.Keys == s.Keys - found.value
    ensures found.None? ==> r == s
    ensures forall k :: k in r ==> r[k] == s[k]
  {
    var keys := if found.Some? then found.value else {};
    if |keys| > 0 then Keyspace.Del(s, keys).0 else s
  }

  /** What clean does to the keyspace, given the keys matching its pattern. */
  ghost predicate CleanEffect(locking: bool, s: Store, s': Store, matching: set<Key>)
  {
    if locking then LockingClean(s, s', matching) else s' == NonLockingClean(s, Some(matching))
  }

  /** What a connection records: being opened, each store command, being closed. */
  datatype Event =
    | Opened
    | SetCommand(key: Key, value: seq<byte>, expiryMillis: Option<int>)
    | GetCommand(key: Key)
    | PutIfAbsentEval(key: Key, value: seq<byte>, ttlMillis: Option<int>)
    | DelCommand(keys: set<Key>)
    | KeysCommand(pattern: seq<byte>)
    | CleanEval(pattern: seq<byte>)
    | Closed

  /** The connection factory, together with the keyspace its connections reach. */
  class RedisConnectionFactory {
    var keyspace: Store
    const matches: Matcher
    ghost var trace: seq<Event>

    constructor (keyspace: Store, matches: Matcher)
      ensures this.keyspace == keyspace && this.matches == matches && trace == []
    {
      this.keyspace := keyspace;
      this.matches := matches;
      trace := [];
    }

    method GetConnection() returns (connection: RedisConnection)
      modifies this`trace
      ensures fresh(connection) && connection.factory == this && connection.open
      ensures trace == old(trace) + [Opened]
    {
      connection := new RedisConnection(this);
      trace := trace + [Opened];
    }
  }

  /** One connection; each command acts on the factory's keyspace and is recorded. */
  class RedisConnection {
    const factory: RedisConnectionFactory
    ghost var open: bool

    constructor (factory: RedisConnectionFactory)
      ensures this.factory == factory && open
    {
      this.factory := factory;
      open := true;
    }

    /** set(key, value), or set(key, value, Expiration, SetOption.upsert()) when an expiry is given. */
    method Set(key: Key, value: seq<byte>, expiryMillis: Option<int>)
      requires open
      modifies factory`keyspace, factory`trace
      ensures factory.keyspace == Keyspace.Set(old(factory.keyspace), key, value, expiryMillis)
      ensures factory.trace == old(factory.trace) + [SetCommand(key, value, expiryMillis)]
    {
      factory.keyspace := Keyspace.Set(factory.keyspace, key, value, expiryMillis);
      factory.trace := factory.trace + [SetCommand(key, value, expiryMillis)];
    }

    method Get(key: Key) returns (value: Option<seq<byte>>)
      requires open
      modifies factory`trace
      ensures value == Keyspace.Get(factory.keyspace, key)
      ensures factory.trace == old(factory.trace) + [GetCommand(key)]
    {
      value := Keyspace.Get(factory.keyspace, key);
      factory.trace := factory.trace + [GetCommand(key)];
    }

    method Del(keys: seq<Key>) returns (count: nat)
      requires open
      modifies factory`keyspace, factory`trace
      ensures (factory.keyspace, count) == Keyspace.Del(old(factory.keyspace), set k | k in keys)
      ensures factory.trace == old(factory.trace) + [DelCommand(set k | k in keys)]
    {
      var named := set k | k in keys;
      var (afterDel, deleted) := Keyspace.Del(factory.keyspace, named);
      factory.keyspace, count := afterDel, deleted;
      factory.trace := factory.trace + [DelCommand(named)];
    }

    /** keys(pattern); a direct connection always answers with a set. */
    method Keys(pattern: seq<byte>) returns (found: Option<set<Key>>)
      requires open
      modifies factory`trace
      ensures found == Some(KeysMatching(factory.keyspace, pattern, factory.matches))
      ensures factory.trace == old(factory.trace) + [KeysCommand(pattern)]
    {
      found := Some(KeysMatching(factory.keyspace, pattern, factory.matches));
      factory.trace := factory.trace + [KeysCommand(pattern)];
    }

    /** eval of putIfAbsent's script, run by the store as one step. */
    method EvalPutIfAbsent(key: Key, value: seq<byte>, ttlMillis: Option<int>) returns (previous: Option<seq<byte>>)
      requires open
      modifies factory`keyspace, factory`trace
      ensures (factory.keyspace, previous) == PutIfAbsentScript(old(factory.keyspace), key, value, ttlMillis)
      ensures factory.trace == old(factory.trace) + [PutIfAbsentEval(key, value, ttlMillis)]
    {
      var (after, answer) := PutIfAbsentScript(factory.keyspace, key, value, ttlMillis);
      factory.keyspace, previous := after, answer;
      factory.trace := factory.trace + [PutIfAbsentEval(key, value, ttlMillis)];
    }

    /** eval of the locking clean's script, run by the store as one step on its KEYS reply. */
    method EvalClean(pattern: seq<byte>) returns (deleted: int)
      requires open
      modifies factory`keyspace, factory`trace
      ensures LockingClean(old(factory.keyspace), factory.keyspace, KeysMatching(old(factory.keyspace), pattern, factory.matches))
      ensures deleted == if KeysMatching(old(factory.keyspace), pattern, factory.matches) == {} then 0 else 1
      ensures factory.trace == old(factory.trace) + [CleanEval(pattern)]
    {
      var matching := KeysMatching(factory.keyspace, pattern, factory.matches);
      var reply := Enumerate(matching);
      if |reply| > 0 {
        assert reply[0] in matching;
      }
      var (after, count) := CleanScript(factory.keyspace, reply);
      factory.keyspace, deleted := after, count;
      factory.trace := factory.trace + [CleanEval(pattern)];
    }

    method Close()
      requires open
      modifies this`open, factory`trace
      ensures !open
      ensures factory.trace == old(factory.trace) + [Closed]
    {
      open := false;
      factory.trace := factory.trace + [Closed];
    }
  }

  /** The callbacks the writer hands to `execute`, one per operation, with what they capture. */
  datatype Callback =
    | PutCallback(key: Key, value: seq<byte>, ttl: Option<Duration>)
    | GetCallback(key: Key)
    | PutIfAbsentCallback(key: Key, value: seq<byte>, ttl: Option<Duration>)
    | RemoveCallback(key: Key)
    | CleanCallback(pattern: seq<byte>)

  /** What a callback returns: "OK", a byte[] (null allowed) or a Long. */
  datatype Reply = Status(text: string) | Bytes(bytes: Option<seq<byte>>) | Count(n: int)

  /**
   * The commands clean issues: the script alone when locking; otherwise KEYS, then
   * DEL of the keys found only when there are some.
   */
  function CleanCommands(locking: bool, pattern: seq<byte>, matching: set<Key>): seq<Event>
  {
    if locking then [CleanEval(pattern)]
    else [KeysCommand(pattern)] + (if |matching| > 0 then [DelCommand(matching)] else [])
  }

  /** The store commands a callback issues on its connection, starting from keyspace `s`. */
  ghost function Commands(callback: Callback, locking: bool, matches: Matcher, s: Store): seq<Event>
  {
    match callback
    case PutCallback(key, value, ttl) => [SetCommand(key, value, TtlMillis(ttl))]
    case GetCallback(key) => [GetCommand(key)]
    case PutIfAbsentCallback(key, value, ttl) => [PutIfAbsentEval(key, value, TtlMillis(ttl))]
    case RemoveCallback(key) => [DelCommand({key})]
    case CleanCallback(pattern) => CleanCommands(locking, pattern, KeysMatching(s, pattern, matches))
  }

  /** What a callback does to the keyspace (`s` to `s'`) and what it returns. */
  ghost predicate Performs(callback: Callback, locking: bool, matches: Matcher, s: Store, s': Store, reply: Reply)
  {
    match callback
    case PutCallback(key, value, ttl) =>
      s' == Keyspace.Set(s, key, value, TtlMillis(ttl)) && reply == Status("OK")
    case GetCallback(key) =>
      s' == s && reply == Bytes(Keyspace.Get(s, key))
    case PutIfAbsentCallback(key, value, ttl) =>
      (s', reply) == (PutIfAbsentScript(s, key, value, TtlMillis(ttl)).0, Bytes(PutIfAbsentScript(s, key, value, TtlMillis(ttl)).1))
    case RemoveCallback(key) =>
      s' == Keyspace.Del(s, {key}).0 && reply == Count(Keyspace.Del(s, {key}).1)
    case CleanCallback(pattern) =>
      reply == Status("OK") && CleanEffect(locking, s, s', KeysMatching(s, pattern, matches))
  }

  class DefaultRedisCacheWriter {
    const connectionFactory: RedisConnectionFactory
    /** Sleep time between lock requests; zero or negative turns locking off. */
    const sleepTime: Duration

    constructor (connectionFactory: RedisConnectionFactory, sleepTime: Duration)
      ensures this.connectionFactory == connectionFactory && this.sleepTime == sleepTime
    {
      this.connectionFactory := connectionFactory;
      this.sleepTime := sleepTime;
    }

    /** DefaultRedisCacheWriter(connectionFactory, sleepTime), with its two null checks. */
    static method Create(connectionFactory: RedisConnectionFactory?, sleepTime: Option<Duration>)
      returns (r: Result<DefaultRedisCacheWriter, Exception>)
      ensures connectionFactory == null ==> r == Failure(IllegalArgument(CONNECTION_FACTORY_NOT_NULL))
      ensures connectionFactory != null && sleepTime.None? ==> r == Failure(IllegalArgument(SLEEP_TIME_NOT_NULL))
      ensures connectionFactory != null && sleepTime.Some? ==>
        r.Success? && fresh(r.value) && r.value.connectionFactory == connectionFactory && r.value.sleepTime == sleepTime.value
    {
      if connectionFactory == null {
        return Failure(IllegalArgument(CONNECTION_FACTORY_NOT_NULL));
      }
      if sleepTime.None? {
        return Failure(IllegalArgument(SLEEP_TIME_NOT_NULL));
      }
      var writer := new DefaultRedisCacheWriter(connectionFactory, sleepTime.value);
      return Success(writer);
    }

    /** DefaultRedisCacheWriter(connectionFactory): sleep time Duration.ZERO, hence non-locking. */
    static method CreateNonLocking(connectionFactory: RedisConnectionFactory?)
      returns (r: Result<DefaultRedisCacheWriter, Exception>)
      ensures connectionFactory == null ==> r == Failure(IllegalArgument(CONNECTION_FACTORY_NOT_NULL))
      ensures connectionFactory != null ==>
        r.Success? && fresh(r.value) && r.value.connectionFactory == connectionFactory
        && r.value.sleepTime == ZERO && !r.value.IsLockingCacheWriter()
    {
      r := Create(connectionFactory, Some(ZERO));
    }

    /** Locking is on exactly when the sleep time is strictly positive. */
    predicate IsLockingCacheWriter()
      ensures IsLockingCacheWriter() <==> sleepTime.nanos > 0
    {
      !sleepTime.IsZero() && !sleepTime.IsNegative()
    }

    method Put(name: Option<string>, key: Option<Key>, value: Option<seq<byte>>, ttl: Option<Duration>, fails: bool)
      returns (r: Result<(), Exception>)
      modifies connectionFactory`keyspace, connectionFactory`trace
      ensures name.None? ==> r == Failure(IllegalArgument(NAME_NOT_NULL))
      ensures name.Some? && key.None? ==> r == Failure(IllegalArgument(KEY_NOT_NULL))
      ensures name.Some? && key.Some? && value.None? ==> r == Failure(IllegalArgument(VALUE_NOT_NULL))
      ensures name.None? || key.None? || value.None? ==> unchanged(connectionFactory)
      ensures name.Some? && key.Some? && value.Some? ==>
        && r == (if fails then Failure(DataAccess) else Success(()))
        && connectionFactory.keyspace ==
             (if fails then old(connectionFactory.keyspace)
              else Keyspace.Set(old(connectionFactory.keyspace), key.value, value.value, TtlMillis(ttl)))
        && connectionFactory.trace == old(connectionFactory.trace) + [Opened]
             + (if fails then [] else [SetCommand(key.value, value.value, TtlMillis(ttl))]) + [Closed]
    {
      if name.None? {
        return Failure(IllegalArgument(NAME_NOT_NULL));
      }
      if key.None? {
        return Failure(IllegalArgument(KEY_NOT_NULL));
      }
      if value.None? {
        return Failure(IllegalArgument(VALUE_NOT_NULL));
      }
      var result := Execute(PutCallback(key.value, value.value, ttl), fails);
      r := if result.Success? then Success(()) else Failure(result.error);
    }

    method Get(name: Option<string>, key: Option<Key>, fails: bool)
      returns (r: Result<Option<seq<byte>>, Exception>)
      modifies connectionFactory`keyspace, connectionFactory`trace
      ensures connectionFactory.keyspace == old(connectionFactory.keyspace)
      ensures name.None? ==> r == Failure(IllegalArgument(NAME_NOT_NULL))
      ensures name.Some? && key.None? ==> r == Failure(IllegalArgument(KEY_NOT_NULL))
      ensures name.None? || key.None? ==> unchanged(connectionFactory)
      ensures name.Some? && key.Some? ==>
        && r == (if fails then Failure(DataAccess) else Success(Keyspace.Get(old(connectionFactory.keyspace), key.value)))
        && connectionFactory.trace == old(connectionFactory.trace) + [Opened]
             + (if fails then [] else [GetCommand(key.value)]) + [Closed]
    {
      if name.None? {
        return Failure(IllegalArgument(NAME_NOT_NULL));
      }
      if key.None? {
        return Failure(IllegalArgument(KEY_NOT_NULL));
      }
      var result := Execute(GetCallback(key.value), fails);
      r := if result.Success? then Success(result.value.bytes) else Failure(result.error);
    }

    method PutIfAbsent(name: Option<string>, key: Option<Key>, value: Option<seq<byte>>, ttl: Option<Duration>, fails: bool)
      returns (r: Result<Option<seq<byte>>, Exception>)
      modifies connectionFactory`keyspace, connectionFactory`trace
      ensures name.None? ==> r == Failure(IllegalArgument(NAME_NOT_NULL))
      ensures name.Some? && key.None? ==> r == Failure(IllegalArgument(KEY_NOT_NULL))
      ensures name.Some? && key.Some? && value.None? ==> r == Failure(IllegalArgument(VALUE_NOT_NULL))
      ensures name.None? || key.None? || value.None? ==> unchanged(connectionFactory)
      ensures name.Some? && key.Some? && value.Some? ==>
        var (after, previous) := PutIfAbsentScript(old(connectionFactory.keyspace), key.value, value.value, TtlMillis(ttl));
        && r == (if fails then Failure(DataAccess) else Success(previous))
        && connectionFactory.keyspace == (if fails then old(connectionFactory.keyspace) else after)
        && connectionFactory.trace == old(connectionFactory.trace) + [Opened]
             + (if fails then [] else [PutIfAbsentEval(key.value, value.value, TtlMillis(ttl))]) + [Closed]
    {
      if name.None? {
        return Failure(IllegalArgument(NAME_NOT_NULL));
      }
      if key.None? {
        return Failure(IllegalArgument(KEY_NOT_NULL));
      }
      if value.None? {
        return Failure(IllegalArgument(VALUE_NOT_NULL));
      }
      var result := Execute(PutIfAbsentCallback(key.value, value.value, ttl), fails);
      r := if result.Success? then Success(result.value.bytes) else Failure(result.error);
    }

    method Remove(name: Option<string>, key: Option<Key>, fails: bool)
      returns (r: Result<(), Exception>)
      modifies connectionFactory`keyspace, connectionFactory`trace
      ensures name.None? ==> r == Failure(IllegalArgument(NAME_NOT_NULL))
      ensures name.Some? && key.None? ==> r == Failure(IllegalArgument(KEY_NOT_NULL))
      ensures name.None? || key.None? ==> unchanged(connectionFactory)
      ensures name.Some? && key.Some? ==>
        && r == (if fails then Failure(DataAccess) else Success(()))
        && connectionFactory.keyspace ==
             (if fails then old(connectionFactory.keyspace) else Keyspace.Del(old(connectionFactory.keyspace), {key.value}).0)
        && connectionFactory.trace == old(connectionFactory.trace) + [Opened]
             + (if fails then [] else [DelCommand({key.value})]) + [Closed]
    {
      if name.None? {
        return Failure(IllegalArgument(NAME_NOT_NULL));
      }
      if key.None? {
        return Failure(IllegalArgument(KEY_NOT_NULL));
      }
      var result := Execute(RemoveCallback(key.value), fails);
      r := if result.Success? then Success(()) else Failure(result.error);
    }

    method Clean(name: Option<string>, pattern: Option<seq<byte>>, fails: bool)
      returns (r: Result<(), Exception>)
      modifies connectionFactory`keyspace, connectionFactory`trace
      ensures name.None? ==> r == Failure(IllegalArgument(NAME_NOT_NULL))
      ensures name.Some? && pattern.None? ==> r == Failure(IllegalArgument(PATTERN_NOT_NULL))
      ensures name.None? || pattern.None? ==> unchanged(connectionFactory)
      ensures name.Some? && pattern.Some? ==>
        && r == (if fails then Failure(DataAccess) else Success(()))
        && (fails ==> connectionFactory.keyspace == old(connectionFactory.keyspace)
                      && connectionFactory.trace == old(connectionFactory.trace) + [Opened, Closed])
      ensures name.Some? && pattern.Some? && !fails ==>
        var keys := KeysMatching(old(connectionFactory.keyspace), pattern.value, connectionFactory.matches);
        && CleanEffect(IsLockingCacheWriter(), old(connectionFactory.keyspace), connectionFactory.keyspace, keys)
        && connectionFactory.trace == old(connectionFactory.trace) + [Opened] + CleanCommands(IsLockingCacheWriter(), pattern.value, keys) + [Closed]
    {
      if name.None? {
        return Failure(IllegalArgument(NAME_NOT_NULL));
      }
      if pattern.None? {
        return Failure(IllegalArgument(PATTERN_NOT_NULL));
      }
      var result := Execute(CleanCallback(pattern.value), fails);
      r := if result.Success? then Success(()) else Failure(result.error);
    }

    /**
     * execute: acquires a connection, applies the callback and closes the connection
     * whether or not the callback failed. `fails` stands for a failure the store
     * connection reports on the callback's first command, before it takes effect.
     */
    method Execute(callback: Callback, fails: bool) returns (r: Result<Reply, Exception>)
      modifies connectionFactory`keyspace, connectionFactory`trace
      ensures fails ==>
        && r == Failure(DataAccess)
        && connectionFactory.keyspace == old(connectionFactory.keyspace)
        && connectionFactory.trace == old(connectionFactory.trace) + [Opened, Closed]
      ensures !fails ==>
        && r.Success?
        && Performs(callback, IsLockingCacheWriter(), connectionFactory.matches,
                    old(connectionFactory.keyspace), connectionFactory.keyspace, r.value)
        && connectionFactory.trace == old(connectionFactory.trace) + [Opened]
             + Commands(callback, IsLockingCacheWriter(), connectionFactory.matches, old(connectionFactory.keyspace)) + [Closed]
    {
      var connection := connectionFactory.GetConnection();
      if fails {
        r := Failure(DataAccess);
      } else {
        var reply := Apply(connection, callback);
        r := Success(reply);
      }
      connection.Close();
    }

    /** The body of each operation's callback, run on an open connection. */
    method Apply(connection: RedisConnection, callback: Callback) returns (reply: Reply)
      requires connection.factory == connectionFactory && connection.open
      modifies connectionFactory`keyspace, connectionFactory`trace
      ensures Performs(callback, IsLockingCacheWriter(), connectionFactory.matches,
                       old(connectionFactory.keyspace), connectionFactory.keyspace, reply)
      ensures connectionFactory.trace == old(connectionFactory.trace)
                + Commands(callback, IsLockingCacheWriter(), connectionFactory.matches, old(connectionFactory.keyspace))
    {
      match callback
      case PutCallback(key, value, ttl) =>
        if ShouldExpireWithin(ttl) {
          connection.Set(key, value, Some(ttl.value.ToMillis()));
        } else {
          connection.Set(key, value, None);
        }
        reply := Status("OK");
      case GetCallback(key) =>
        var value := connection.Get(key);
        reply := Bytes(value);
      case PutIfAbsentCallback(key, value, ttl) =>
        var shouldExpireWithin := ShouldExpireWithin(ttl);
        var ttlMillis := if shouldExpireWithin then Some(ttl.value.ToMillis()) else None;
        var previous := connection.EvalPutIfAbsent(key, value, ttlMillis);
        reply := Bytes(previous);
      case RemoveCallback(key) =>
        var count := connection.Del([key]);
        assert (set k | k in [key]) == {key};
        reply := Count(count);
      case CleanCallback(pattern) =>
        ApplyClean(connection, pattern);
        reply := Status("OK");
    }

    /** The body of clean's callback: the script when locking, otherwise KEYS and, when it found keys, DEL. */
    method ApplyClean(connection: RedisConnection, pattern: seq<byte>)
      requires connection.factory == connectionFactory && connection.open
      modifies connectionFactory`keyspace, connectionFactory`trace
      ensures CleanEffect(IsLockingCacheWriter(), old(connectionFactory.keyspace), connectionFactory.keyspace,
                          KeysMatching(old(connectionFactory.keyspace), pattern, connectionFactory.matches))
      ensures connectionFactory.trace == old(connectionFactory.trace)
                + CleanCommands(IsLockingCacheWriter(), pattern, KeysMatching(old(connectionFactory.keyspace), pattern, connectionFactory.matches))
    {
      if IsLockingCacheWriter() {
        var deleted := connection.EvalClean(pattern);
      } else {
        var found := connection.Keys(pattern);
        var keys := Enumerate(if found.Some? then found.value else {});
        assert (set k | k in keys) == found.value;
        if |keys| > 0 {
          var count := connection.Del(keys);
        }
      }
    }
  }
}
