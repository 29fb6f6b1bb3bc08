# Redis cache writer and cache key

A Dafny model of two pieces of the Spring Data Redis cache layer.

- `DefaultRedisCacheWriter` runs the cache operations `put`, `get`, `putIfAbsent`,
  `remove` and `clean`. Each operation checks its arguments and then runs a callback
  through `execute`, which takes a connection from the connection factory and always
  closes it again.
- `RedisCacheKey` and its builder form the bytes a cache entry is stored under. They
  are the serialized key element, with an optional byte prefix in front.

Files:

- `base.dfy` (module `Base`): bytes, nullable references (`Option`), thrown
  exceptions (`Result`, `Exception`), and the listing of a set as a sequence.
- `keyspace.dfy` (module `Keyspace`): the store as a map from keys to entries. Each
  entry holds a value and the expiry it was given, in milliseconds. The store commands
  the writer issues (SET, GET, SETNX, PEXPIRE, DEL, KEYS) are functions on that map.
  KEYS glob matching is an uninterpreted `Matcher`.
- `cache_writer.dfy` (module `CacheWriter`):
  - `Duration`, the time-to-live rule and the two Lua scripts, each given as its effect
    on the store.
  - The connection factory and its connections as classes. The factory owns the
    keyspace and a ghost trace of connection events: opened, each command, closed.
  - The writer as a class. `execute` becomes `Execute` over a `Callback` value that
    records what each operation's lambda captures.
- `cache_writer_properties.dfy` (module `CacheWriterProperties`): lemmas relating the
  operations to one another, and the finding about the locking clean.
- `cache_key.dfy` (module `CacheKey`): the key, its builder, and the
  `Arrays.copyOf` / `System.arraycopy` pair as array methods with copy loops.

Java `null` is `None`. A thrown exception is a `Failure`: `Assert.notNull` throws
`IllegalArgument` with the source's message, a call on a null reference throws
`NullPointer`, and a failure reported by the store connection throws `DataAccess`.
The `fails` argument of each writer operation stands for the store connection failing
the callback's first command. The connection is still closed in that case.

## Model

| member | source | states |
|---|---|---|
| Base.Enumerate | src/main/java/org/springframework/data/redis/cache/DefaultRedisCacheWriter.java:175-176 | The array made from the set of keys holds every key of the set exactly once: same length, same elements, no repeats. |
| Keyspace.Set | src/main/java/org/springframework/data/redis/cache/DefaultRedisCacheWriter.java:88-92 | SET is an upsert. The key is present afterwards with the new value and exactly the given expiry. Every other key is unchanged. |
| Keyspace.Get | src/main/java/org/springframework/data/redis/cache/DefaultRedisCacheWriter.java:108 | GET gives the stored bytes when the key is present, and null exactly when it is absent. |
| Keyspace.SetNX | src/main/java/org/springframework/data/redis/cache/DefaultRedisCacheWriter.java:127 | SETNX reports success exactly when the key was absent. It then stores the value without expiry. A present key leaves the store as it was. Other keys are untouched. |
| Keyspace.PExpire | src/main/java/org/springframework/data/redis/cache/DefaultRedisCacheWriter.java:128-130 | PEXPIRE gives an existing key that expiry and keeps its value. It keeps the set of keys, leaves other keys alone, and reports whether the key existed. |
| Keyspace.Del | src/main/java/org/springframework/data/redis/cache/DefaultRedisCacheWriter.java:152 | DEL removes exactly the named keys and keeps the remaining entries. Deleting absent keys changes nothing and counts 0. The count is the number of named keys that existed, never more than the number named. |
| Keyspace.KeysMatching | src/main/java/org/springframework/data/redis/cache/DefaultRedisCacheWriter.java:175 | KEYS answers exactly the present keys that match the pattern. |
| CacheWriter.Duration.ToMillis | src/main/java/org/springframework/data/redis/cache/DefaultRedisCacheWriter.java:89 | toMillis divides the nanoseconds by one million, truncating toward zero as Java's integer division does. A non-negative duration gives its whole milliseconds rounded down, and a negative one rounds up. |
| CacheWriter.ShouldExpireWithin | src/main/java/org/springframework/data/redis/cache/DefaultRedisCacheWriter.java:204-206 | A time to live applies exactly when it is non-null and strictly positive. |
| CacheWriter.TtlMillis | src/main/java/org/springframework/data/redis/cache/DefaultRedisCacheWriter.java:123-124 | `ttlMillis` is non-null exactly when the time to live applies. It is then the duration's whole milliseconds and never negative. |
| CacheWriter.PutIfAbsentScript | src/main/java/org/springframework/data/redis/cache/DefaultRedisCacheWriter.java:126-134 | On an absent key, the script stores the value with the given expiry (none when `ttlMillis` is null) and answers nil. On a present key, it answers the current value and leaves the store unchanged: same value, same expiry. |
| CacheWriter.CleanScript | src/main/java/org/springframework/data/redis/cache/DefaultRedisCacheWriter.java:167-173 | Locking clean's script as written. An empty KEYS reply deletes nothing and answers 0. Otherwise only the reply's first key is deleted, and the script answers 1 or 0. All remaining entries are kept. |
| CacheWriter.CleanScriptIntended | src/main/java/org/springframework/data/redis/cache/DefaultRedisCacheWriter.java:167-173 | Corrected script: every key in the KEYS reply is deleted and all other entries are kept. An empty reply changes nothing and answers 0. |
| CacheWriter.NonLockingClean | src/main/java/org/springframework/data/redis/cache/DefaultRedisCacheWriter.java:175-181 | Non-locking clean deletes exactly the keys KEYS returned. A null reply deletes nothing. The remaining entries are kept. |
| CacheWriter.RedisConnectionFactory.GetConnection | src/main/java/org/springframework/data/redis/cache/DefaultRedisCacheWriter.java:196 | A new open connection on this factory. The trace records that it was opened. |
| CacheWriter.RedisConnection.Set | src/main/java/org/springframework/data/redis/cache/DefaultRedisCacheWriter.java:89-91 | On an open connection, the keyspace becomes SET's result and the command is recorded. |
| CacheWriter.RedisConnection.Get | src/main/java/org/springframework/data/redis/cache/DefaultRedisCacheWriter.java:108 | On an open connection, answers GET and leaves the keyspace unchanged. The command is recorded. |
| CacheWriter.RedisConnection.Del | src/main/java/org/springframework/data/redis/cache/DefaultRedisCacheWriter.java:152 | On an open connection, the keyspace and the count become DEL's result for the named keys. The command is recorded. |
| CacheWriter.RedisConnection.Keys | src/main/java/org/springframework/data/redis/cache/DefaultRedisCacheWriter.java:175 | On an open connection, answers the set of matching keys and leaves the keyspace unchanged. The command is recorded. |
| CacheWriter.RedisConnection.EvalPutIfAbsent | src/main/java/org/springframework/data/redis/cache/DefaultRedisCacheWriter.java:126-138 | The putIfAbsent script runs as one step. The keyspace and the answer are the script's effect, and the eval is recorded. |
| CacheWriter.RedisConnection.EvalClean | src/main/java/org/springframework/data/redis/cache/DefaultRedisCacheWriter.java:167-173 | The locking clean script runs as one step on some listing of the matching keys. It answers 0 when nothing matches and 1 otherwise. The eval is recorded. |
| CacheWriter.RedisConnection.Close | src/main/java/org/springframework/data/redis/cache/DefaultRedisCacheWriter.java:200 | The connection is no longer open, and its closing is recorded. |
| CacheWriter.DefaultRedisCacheWriter.Create | src/main/java/org/springframework/data/redis/cache/DefaultRedisCacheWriter.java:66-73 | A null connection factory is rejected first, with its message. A null sleep time is rejected next, with its message. Otherwise a new writer holds both arguments. |
| CacheWriter.DefaultRedisCacheWriter.CreateNonLocking | src/main/java/org/springframework/data/redis/cache/DefaultRedisCacheWriter.java:57-59 | The one-argument constructor rejects a null factory. Otherwise the sleep time is `Duration.ZERO`, so the writer is not locking. |
| CacheWriter.DefaultRedisCacheWriter.IsLockingCacheWriter | src/main/java/org/springframework/data/redis/cache/DefaultRedisCacheWriter.java:190-192 | Locking is on exactly when the sleep time is strictly positive. |
| CacheWriter.DefaultRedisCacheWriter.Put | src/main/java/org/springframework/data/redis/cache/DefaultRedisCacheWriter.java:80-96 | A null name, key or value is rejected in that order, with its message, before any connection is taken, and the store is untouched. Otherwise the key is upserted with the value and the ttl's expiry. The trace is open, SET, close, or open, close when the connection fails. |
| CacheWriter.DefaultRedisCacheWriter.Get | src/main/java/org/springframework/data/redis/cache/DefaultRedisCacheWriter.java:103-109 | A null name or key is rejected before any connection. Otherwise the result is the stored bytes or null, and the store is unchanged. The connection is opened and closed. |
| CacheWriter.DefaultRedisCacheWriter.PutIfAbsent | src/main/java/org/springframework/data/redis/cache/DefaultRedisCacheWriter.java:116-140 | A null name, key or value is rejected before any connection. Otherwise the store and the answer follow the putIfAbsent script, with `ttlMillis` from the ttl. The connection is opened and closed. |
| CacheWriter.DefaultRedisCacheWriter.Remove | src/main/java/org/springframework/data/redis/cache/DefaultRedisCacheWriter.java:147-153 | A null name or key is rejected before any connection. Otherwise exactly that key is deleted. The connection is opened and closed. |
| CacheWriter.DefaultRedisCacheWriter.Clean | src/main/java/org/springframework/data/redis/cache/DefaultRedisCacheWriter.java:160-185 | A null name or pattern is rejected before any connection. A locking writer runs the clean script as written. A non-locking writer deletes exactly the matching keys, issuing KEYS then DEL, and no DEL when nothing matches. This holds when no other client writes in between. The connection is opened and closed. |
| CacheWriter.DefaultRedisCacheWriter.Execute | src/main/java/org/springframework/data/redis/cache/DefaultRedisCacheWriter.java:194-202 | Takes one connection and applies the callback. The connection is closed on both the normal and the failing path. A failure leaves the store as it was and is rethrown. |
| CacheWriter.DefaultRedisCacheWriter.Apply | src/main/java/org/springframework/data/redis/cache/DefaultRedisCacheWriter.java:86-184 | Each callback body has its operation's effect on the store and returns its reply. It issues exactly its operation's commands, in order. |
| CacheWriter.DefaultRedisCacheWriter.ApplyClean | src/main/java/org/springframework/data/redis/cache/DefaultRedisCacheWriter.java:165-184 | Clean's callback body. A locking writer runs the script as written on some listing of the matching keys. Otherwise exactly the matching keys are deleted and the rest is kept. The commands are the eval alone, or KEYS followed by DEL only when keys were found. |
| CacheWriterProperties.PutThenGet | src/main/java/org/springframework/data/redis/cache/DefaultRedisCacheWriter.java:86-95 | After put, get answers the value put. The expiry is present exactly when the ttl is non-null, non-zero and non-negative, and is then `nanos / 1_000_000`. Other keys read as before. |
| CacheWriterProperties.SubMillisecondTtl | src/main/java/org/springframework/data/redis/cache/DefaultRedisCacheWriter.java:124 | A positive time to live under 1 ms still applies, with an expiry of 0 ms. |
| CacheWriterProperties.PutIfAbsentIsGetThenPut | src/main/java/org/springframework/data/redis/cache/DefaultRedisCacheWriter.java:122-134 | putIfAbsent equals a get followed, on a miss, by a put with the same ttl. The answer is that get's result. |
| CacheWriterProperties.PutIfAbsentFirstCallerWins | src/main/java/org/springframework/data/redis/cache/DefaultRedisCacheWriter.java:126-133 | Two putIfAbsents on an absent key: the first stores and answers null. The second answers the first value and changes nothing. |
| CacheWriterProperties.RemoveOnlyTouchesItsKey | src/main/java/org/springframework/data/redis/cache/DefaultRedisCacheWriter.java:147-153 | remove makes its key absent and leaves every other key as it was. It is a no-op on an absent key and is idempotent. |
| CacheWriterProperties.NonLockingCleanRemovesEveryMatch | src/main/java/org/springframework/data/redis/cache/DefaultRedisCacheWriter.java:174-181 | After a non-locking clean, no matching key remains and every non-matching entry is kept. A second clean changes nothing. |
| CacheWriterProperties.LockingCleanDeletesAtMostOne | src/main/java/org/springframework/data/redis/cache/DefaultRedisCacheWriter.java:166-173 | The locking clean deletes at most one key, and that key matches. When nothing matches, it changes nothing. |
| CacheWriterProperties.CleanStrategiesAgreeOnOneMatch | src/main/java/org/springframework/data/redis/cache/DefaultRedisCacheWriter.java:166-181 | With at most one matching key, the locking and non-locking cleans leave the same keyspace. |
| CacheWriterProperties.LockingCleanLeavesAMatch | src/main/java/org/springframework/data/redis/cache/DefaultRedisCacheWriter.java:167-173 | With two or more matching keys, a matching key survives the locking clean. |
| CacheWriterProperties.IntendedCleanRemovesEveryMatch | src/main/java/org/springframework/data/redis/cache/DefaultRedisCacheWriter.java:167-181 | The corrected script leaves exactly what the non-locking clean leaves, so no matching key survives. |
| CacheWriterProperties.PutIfAbsentTwice | src/main/java/org/springframework/data/redis/cache/DefaultRedisCacheWriter.java:116-140 | Through the writer, two putIfAbsents on an absent key answer null and then the first value, and the first value stays stored. Each call opens and closes one connection. |
| CacheKey.CopyOf | src/main/java/org/springframework/data/redis/cache/RedisCacheKey.java:107 | `Arrays.copyOf` gives a new array of the requested length. It holds the original's leading bytes, padded with zeros. |
| CacheKey.ArrayCopy | src/main/java/org/springframework/data/redis/cache/RedisCacheKey.java:108 | `System.arraycopy` puts the source range at the destination offset, as if through a temporary buffer. The rest of the destination is unchanged. |
| CacheKey.KeyBytesFor | src/main/java/org/springframework/data/redis/cache/RedisCacheKey.java:100-111 | The key is as long as the prefix and the raw key together. Its leading bytes, as many as the prefix has, are the prefix and the rest are the raw key. An empty prefix gives the raw key. |
| CacheKey.PrefixKeepsKeysApart | src/main/java/org/springframework/data/redis/cache/RedisCacheKey.java:107-110 | Under one prefix, two keys are equal exactly when their elements are, and stripping the prefix gives the element back. |
| CacheKey.DistinctPrefixesSeparateCaches | src/main/java/org/springframework/data/redis/cache/RedisCacheKey.java:107-110 | Under prefixes of equal length, two keys are equal exactly when both prefix and element are equal. |
| CacheKey.Int32Add | src/main/java/org/springframework/data/redis/cache/RedisCacheKey.java:107 | Java `int` addition: the result lies in the 32-bit range and differs from the true sum by a multiple of 2^32. |
| CacheKey.LengthSumWraps | src/main/java/org/springframework/data/redis/cache/RedisCacheKey.java:107 | For two array lengths, the `int` sum `prefix.length + rawKey.length` is negative exactly when the true sum exceeds Integer.MAX_VALUE, and is the true sum otherwise. |
| CacheKey.Prefixed | src/main/java/org/springframework/data/redis/cache/RedisCacheKey.java:107-110 | When the two lengths add up past Integer.MAX_VALUE, `copyOf` gets a negative length and throws NegativeArraySizeException. Otherwise the prefixed key is a new array: the prefix, then the raw key. |
| CacheKey.RedisCacheKey.GetKeyBytes | src/main/java/org/springframework/data/redis/cache/RedisCacheKey.java:41-43 | For a key built by the builder (`Valid`), the bytes are the prefix that was used followed by the serialized key element. With no prefix they are the serialized element alone. |
| CacheKey.RedisCacheKey.HasPrefix | src/main/java/org/springframework/data/redis/cache/RedisCacheKey.java:48-50 | For a key built by the builder, true exactly when a non-empty prefix was used. The key bytes then start with that prefix and are longer than the serialized element. |
| CacheKey.RedisCacheKey.Builder | src/main/java/org/springframework/data/redis/cache/RedisCacheKey.java:55-58 | A null key element is rejected with its message. Otherwise the builder is new, with no prefix and no serializer. |
| CacheKey.RedisCacheKeyBuilder.UsePrefix | src/main/java/org/springframework/data/redis/cache/RedisCacheKey.java:76-79 | Sets the prefix (null allowed), changes nothing else, and returns the same builder. |
| CacheKey.RedisCacheKeyBuilder.WithKeySerializer | src/main/java/org/springframework/data/redis/cache/RedisCacheKey.java:87-90 | Sets the serializer (null allowed), changes nothing else, and returns the same builder. |
| CacheKey.RedisCacheKeyBuilder.HasPrefix | src/main/java/org/springframework/data/redis/cache/RedisCacheKey.java:96-98 | True exactly when the prefix is non-null and non-empty. A null prefix and an empty prefix both count as no prefix. |
| CacheKey.RedisCacheKeyBuilder.SerializeKeyElement | src/main/java/org/springframework/data/redis/cache/RedisCacheKey.java:114-121 | A `byte[]` element with no serializer is returned as that very array. With a serializer, the result holds its output, in a new array because the model's serializers never throw and never share arrays. A non-`byte[]` element with no serializer throws NullPointer. |
| CacheKey.RedisCacheKeyBuilder.GetKeyBytes | src/main/java/org/springframework/data/redis/cache/RedisCacheKey.java:100-111 | Without a prefix (null or empty), the raw key is returned itself. With one, the result is a new array holding the prefix then the raw key. The prefix array's contents are unchanged. It throws NullPointer exactly when serialization does. It throws NegativeArraySizeException exactly when a prefix is used and the two lengths overflow `int`. |
| CacheKey.RedisCacheKeyBuilder.Build | src/main/java/org/springframework/data/redis/cache/RedisCacheKey.java:92-94 | It throws exactly when getKeyBytes does, with the same exception. The built key's `hasPrefix` is true exactly when a non-empty prefix was put in front of the raw key. Its bytes are prefix plus raw key in that case, and the raw key otherwise. The key is `Valid`, recording the prefix used and the serialized element. An unprefixed `byte[]` element with no serializer makes the key's bytes that very array. |

No postcondition of a writer operation uses `name.value`: the name only decides whether
the call is rejected. The keyspace, the reply and the trace of commands are stated
without it. So the cache name never decides
which store key is touched.

## Left out

- Store-side time: entries record the expiry they were given, but time does not pass and
  nothing expires. A PEXPIRE or SET PX of 0 ms (a positive time to live under one
  millisecond) is recorded as expiry 0. The store's own handling of zero expiries, which
  deletes or rejects them, is not modelled.
- The Lua sources are not interpreted. Each script is modelled by its effect on the store,
  and the eval's arguments are passed as values instead of as strings.
- KEYS glob matching is an uninterpreted `Matcher`.
- KEYS answering null happens on pipelined or queued connections, which are not part of
  this model. A direct connection in the model always answers a set. `NonLockingClean`
  still treats a null reply as no keys.
- CacheWriter.Duration.ToMillis: does not model the `ArithmeticException`
  `Duration.toMillis` throws on overflow, because durations are unbounded integers here.
- The connection factory's internals and exception translation are outside this model.
  A store failure is the single `fails` flag. It fails the callback's first command
  before that command takes effect. Failures later in a callback are not represented.
- The serializer implementations are an abstract function. The model assumes a
  serializer never answers null.
- Other clients of the store are not modelled: the keyspace changes only through this
  writer's commands, and each eval is one atomic step. So the clean properties hold for a
  single client only. In the non-locking clean, a matching key that another client writes
  between KEYS and DEL survives `clean`. The locking writer in this model has no lock key,
  so it does not guard against that either.
- CacheKey.RedisCacheKeyBuilder.SerializeKeyElement: assumes that `serialize` never throws
  and that its result is a new array. The source returns whatever `serialize` returns. That
  may be an array shared with the caller, such as a pass-through serializer's input, and
  `serialize` may throw a serialization exception.
- CacheKey.ArrayCopy: a bad offset or length is excluded by its precondition.
  `System.arraycopy` would throw `IndexOutOfBoundsException` instead. The one caller
  always passes valid bounds.
- Sharing of the returned `byte[]` with the caller (aliasing) is modelled only where it
  matters. An unprefixed `byte[]` key element is that very array, and a prefixed key is
  a new one. Later writes by callers into shared arrays are not followed.
- CacheWriter.CleanScript: does not model the script's error path. Lua's `unpack` fails
  with "too many results to unpack" when the KEYS reply is longer than the Lua stack allows
  (about 8000 values). The eval then errors, nothing is deleted, and `clean` throws after
  closing the connection. The model deletes the reply's first key for every non-empty reply.
  `CleanScriptIntended`, if written as a DEL of the unpacked reply, would have the same limit.
- CacheWriter.DefaultRedisCacheWriter.Clean: a locking writer uses the script as written
  (see Findings). The intended behaviour is modelled and proved beside it, in
  `CleanScriptIntended`.
- Lock keys and sleeping between lock attempts: the writer that is modelled has neither.
  `sleepTime` only selects the clean branch.

## Findings

| source | as written | input that shows it | evidently intended | confidence | as-written member | corrected member |
|---|---|---|---|---|---|---|
| src/main/java/org/springframework/data/redis/cache/DefaultRedisCacheWriter.java:167-173 | `local k = unpack(redis.call('keys', ARGV[1]))` binds only the first key of the KEYS reply, so the locking clean deletes at most one key. | Any keyspace holding two keys that match the pattern: one of them survives `clean`. | Delete every key matching the pattern, as the non-locking branch does. | high; not executed | CacheWriterProperties.LockingCleanLeavesAMatch | CacheWriterProperties.IntendedCleanRemovesEveryMatch |
