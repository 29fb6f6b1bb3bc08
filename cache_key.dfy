/**
 * RedisCacheKey and its builder: the stored key is the serialized key element,
 * with the builder's prefix in front of it when that prefix is not empty.
 */
module CacheKey {
  import opened Base

  const KEY_ELEMENT_NOT_NULL := "KeyElement must not be null!"

  /** Integer.MAX_VALUE, also the largest length a Java array can have. */
  const INT_MAX := 0x7fff_ffff

  /** A key element: a byte[] or any other object, of type E. */
  datatype KeyElement<E> = ByteArray(bytes: array<byte>) | Object(value: E)

  /** What a serializer is given: the element's bytes or the object itself. */
  datatype ElementValue<E> = BytesValue(bytes: seq<byte>) | ObjectValue(value: E)

  /** RedisSerializer.serialize, left abstract: every element has some byte form. */
  type Serializer<!E> = ElementValue<E> -> seq<byte>

  function ValueOf<E>(element: KeyElement<E>): ElementValue<E>
    reads if element.ByteArray? then {element.bytes} else {}
  {
    match element
    case ByteArray(bytes) => BytesValue(bytes[..])
    case Object(value) => ObjectValue(value)
  }

  /**
   * Arrays.copyOf(original, newLength): a new array of the given length holding
   * `original`'s leading bytes, padded with zero bytes.
   */
  method CopyOf(original: array<byte>, newLength: nat) returns (copy: array<byte>)
    ensures fresh(copy) && copy.Length == newLength
    ensures forall i :: 0 <= i < newLength ==> copy[i] == if i < original.Length then original[i] else 0
  {
    copy := new byte[newLength];
    var i := 0;
    while i < newLength
      invariant 0 <= i <= newLength
      invariant forall j :: 0 <= j < i ==> copy[j] == if j < original.Length then original[j] else 0
    {
      copy[i] := if i < original.Length then original[i] else 0;
      i := i + 1;
    }
  }

  /**
   * System.arraycopy(src, srcPos, dest, destPos, length): the `length` bytes of
   * `src` from `srcPos` land in `dest` from `destPos`, as if copied through a
   * temporary buffer (so `src` and `dest` may be the same array); the rest of
   * `dest` is untouched.
   */
  method ArrayCopy(src: array<byte>, srcPos: nat, dest: array<byte>, destPos: nat, length: nat)
    requires srcPos + length <= src.Length && destPos + length <= dest.Length
    modifies dest
    ensures forall j :: 0 <= j < dest.Length ==>
      dest[j] == if destPos <= j < destPos + length then old(src[srcPos + (j - destPos)]) else old(dest[j])
  {
    var buffer := src[srcPos..srcPos + length];
    var i := 0;
    while i < length
      invariant 0 <= i <= length
      invariant forall j :: 0 <= j < dest.Length ==>
        dest[j] == if destPos <= j < destPos + i then buffer[j - destPos] else old(dest[j])
    {
      dest[destPos + i] := buffer[i];
      i := i + 1;
    }
  }

  /**
   * The bytes a cache key is stored under: the prefix followed by the serialized key
   * element. An empty prefix leaves the serialized element as it is.
   */
  function KeyBytesFor(prefix: seq<byte>, rawKey: seq<byte>): (r: seq<byte>)
    ensures |r| == |prefix| + |rawKey|
    ensures r[..|prefix|] == prefix && r[|prefix|..] == rawKey
    ensures |prefix| == 0 ==> r == rawKey
  {
    prefix + rawKey
  }

  /** Under one prefix, distinct key elements keep distinct keys, and the prefix can be stripped again. */
  lemma PrefixKeepsKeysApart(prefix: seq<byte>, a: seq<byte>, b: seq<byte>)
    ensures KeyBytesFor(prefix, a) == KeyBytesFor(prefix, b) <==> a == b
    ensures KeyBytesFor(prefix, a)[|prefix|..] == a
  {
  }

  /**
   * Under prefixes of one length, two keys are equal exactly when both the prefixes
   * and the key elements are: caches with distinct prefixes never share a key.
   */
  lemma DistinctPrefixesSeparateCaches(p1: seq<byte>, p2: seq<byte>, a: seq<byte>, b: seq<byte>)
    requires |p1| == |p2|
    ensures KeyBytesFor(p1, a) == KeyBytesFor(p2, b) <==> p1 == p2 && a == b
  {
  }

  /** Java `int` addition: the sum wrapped into 32-bit two's complement. */
  function Int32Add(a: int, b: int): (r: int)
    ensures -0x8000_0000 <= r <= INT_MAX
    ensures (a + b - r) % 0x1_0000_0000 == 0
  {
    (a + b + 0x8000_0000) % 0x1_0000_0000 - 0x8000_0000
  }

  /**
   * For two array lengths, the `int` sum is negative exactly when the true sum is
   * beyond Integer.MAX_VALUE, and is the true sum otherwise.
   */
  lemma LengthSumWraps(a: nat, b: nat)
    requires a <= INT_MAX && b <= INT_MAX
    ensures Int32Add(a, b) < 0 <==> a + b > INT_MAX
    ensures a + b <= INT_MAX ==> Int32Add(a, b) == a + b
  {
    if a + b > INT_MAX {
      assert 0x1_0000_0000 <= a + b + 0x8000_0000 < 2 * 0x1_0000_0000;
      assert Int32Add(a, b) == a + b - 0x1_0000_0000;
    }
  }

  /**
   * The prefixed key: `Arrays.copyOf(prefix, prefix.length + rawKey.length)`, then
   * `rawKey` copied in after the prefix. The length is an `int` sum; when the two
   * lengths add up past Integer.MAX_VALUE it wraps negative (LengthSumWraps) and
   * `copyOf` throws NegativeArraySizeException.
   */
  method Prefixed(prefix: array<byte>, rawKey: array<byte>) returns (r: Result<array<byte>, Exception>)
    ensures r.Failure? <==> prefix.Length + rawKey.Length > INT_MAX
    ensures r.Failure? ==> r.error == NegativeArraySize
    ensures r.Success? ==> fresh(r.value)
    ensures r.Success? ==> r.value.Length == prefix.Length + rawKey.Length
    ensures r.Success? ==> r.value[..prefix.Length] == prefix[..] && r.value[prefix.Length..] == rawKey[..]
    ensures r.Success? ==> r.value[..] == KeyBytesFor(prefix[..], rawKey[..])
  {
    if prefix.Length + rawKey.Length > INT_MAX {
      return Failure(NegativeArraySize);
    }
    var prefixedKey := CopyOf(prefix, prefix.Length + rawKey.Length);
    ArrayCopy(rawKey, 0, prefixedKey, prefix.Length, rawKey.Length);
    assert prefixedKey[..] == prefixedKey[..prefix.Length] + prefixedKey[prefix.Length..];
    return Success(prefixedKey);
  }

  /**
   * The key a cache operation sends to the store. The ghost fields record the prefix
   * that was put in front (empty when none was) and the serialized key element.
   */
  class RedisCacheKey {
    const keyBytes: array<byte>
    const hasPrefix: bool
    ghost const prefixUsed: seq<byte>
    ghost const rawKey: seq<byte>

    constructor (keyBytes: array<byte>, hasPrefix: bool, ghost prefixUsed: seq<byte>, ghost rawKey: seq<byte>)
      ensures this.keyBytes == keyBytes && this.hasPrefix == hasPrefix
      ensures this.prefixUsed == prefixUsed && this.rawKey == rawKey
    {
      this.keyBytes := keyBytes;
      this.hasPrefix := hasPrefix;
      this.prefixUsed := prefixUsed;
      this.rawKey := rawKey;
    }

    /**
     * The key bytes are the used prefix followed by the serialized element, and the
     * flag says whether that prefix is non-empty. The key bytes may be the caller's
     * own array (an unprefixed byte[] element), so later writes to it can break this.
     */
    ghost predicate Valid()
      reads keyBytes
    {
      && keyBytes[..] == KeyBytesFor(prefixUsed, rawKey)
      && (hasPrefix <==> |prefixUsed| > 0)
    }

    /** The key element's bytes, with the prefix in front when there is one. */
    function GetKeyBytes(): (r: array<byte>)
      reads keyBytes
      ensures Valid() ==> r[..] == KeyBytesFor(prefixUsed, rawKey)
      ensures Valid() && |prefixUsed| == 0 ==> r[..] == rawKey
    {
      keyBytes
    }

    /** Whether a non-empty prefix was put in front of the key element's bytes. */
    function HasPrefix(): (b: bool)
      reads keyBytes
      ensures Valid() ==> (b <==> |prefixUsed| > 0)
      ensures Valid() && b ==> GetKeyBytes()[..|prefixUsed|] == prefixUsed && |GetKeyBytes()[..]| > |rawKey|
    {
      hasPrefix
    }

    /** RedisCacheKey.builder: a builder for a non-null key element, without prefix or serializer. */
    static method Builder<E>(keyElement: Option<KeyElement<E>>) returns (r: Result<RedisCacheKeyBuilder<E>, Exception>)
      ensures keyElement.None? ==> r == Failure(IllegalArgument(KEY_ELEMENT_NOT_NULL))
      ensures keyElement.Some? ==>
        && r.Success? && fresh(r.value)
        && r.value.keyElement == keyElement.value && r.value.serializer.None? && r.value.prefix == null
    {
      if keyElement.None? {
        return Failure(IllegalArgument(KEY_ELEMENT_NOT_NULL));
      }
      var builder := new RedisCacheKeyBuilder(keyElement.value);
      return Success(builder);
    }
  }

  class RedisCacheKeyBuilder<E> {
    const keyElement: KeyElement<E>
    var serializer: Option<Serializer<E>>
    var prefix: array?<byte>

    constructor (keyElement: KeyElement<E>)
      ensures this.keyElement == keyElement && serializer.None? && prefix == null
    {
      this.keyElement := keyElement;
      serializer := None;
      prefix := null;
    }

    /** usePrefix: remembers the prefix (null allowed) and returns this builder. */
    method UsePrefix(prefix: array?<byte>) returns (self: RedisCacheKeyBuilder<E>)
      modifies this`prefix
      ensures self == this && this.prefix == prefix
    {
      this.prefix := prefix;
      self := this;
    }

    /** withKeySerializer: remembers the serializer (null allowed) and returns this builder. */
    method WithKeySerializer(serializer: Option<Serializer<E>>) returns (self: RedisCacheKeyBuilder<E>)
      modifies this`serializer
      ensures self == this && this.serializer == serializer
    {
      this.serializer := serializer;
      self := this;
    }

    /** A prefix counts only when it is not null and not empty: a null and an empty prefix behave alike. */
    predicate HasPrefix()
      reads this
      ensures HasPrefix() <==> prefix != null && prefix.Length > 0
      ensures !HasPrefix() ==> prefix == null || prefix[..] == []
    {
      prefix != null && prefix.Length > 0
    }

    /** The key element can be serialized: there is a serializer, or the element is a byte[]. */
    predicate Serializable()
      reads this
    {
      serializer.Some? || keyElement.ByteArray?
    }

    /** The bytes the key element serializes to, when it can be serialized at all. */
    ghost function RawKey(): seq<byte>
      requires Serializable()
      reads this, if keyElement.ByteArray? then {keyElement.bytes} else {}
    {
      if serializer.Some? then serializer.value(ValueOf(keyElement)) else keyElement.bytes[..]
    }

    /**
     * serializeKeyElement: a byte[] element without serializer is used as it is (the
     * very same array); otherwise the serializer's output, in a new array. A non-byte[]
     * element without serializer dereferences the null serializer.
     */
    method SerializeKeyElement() returns (r: Result<array<byte>, Exception>)
      ensures r.Failure? <==> serializer.None? && keyElement.Object?
      ensures r.Failure? ==> r.error == NullPointer
      ensures serializer.None? && keyElement.ByteArray? ==> r == Success(keyElement.bytes)
      ensures serializer.Some? ==> r.Success? && fresh(r.value)
      ensures r.Success? ==> r.value[..] == RawKey()
    {
      if serializer.None? && keyElement.ByteArray? {
        return Success(keyElement.bytes);
      }
      if serializer.None? {
        return Failure(NullPointer);
      }
      var bytes := serializer.value(ValueOf(keyElement));
      var serialized := new byte[|bytes|](i requires 0 <= i < |bytes| => bytes[i]);
      return Success(serialized);
    }

    /**
     * getKeyBytes: without a prefix, the raw key itself; with one, a new array
     * holding the prefix followed by the raw key. The prefix array is not written.
     * It throws when serialization does, and when the two lengths overflow `int`.
     */
    method GetKeyBytes() returns (r: Result<array<byte>, Exception>)
      ensures !Serializable() ==> r == Failure(NullPointer)
      ensures Serializable() ==> (r.Failure? <==> HasPrefix() && prefix.Length + |RawKey()| > INT_MAX)
      ensures Serializable() && r.Failure? ==> r.error == NegativeArraySize
      ensures r.Success? ==> r.value[..] == KeyBytesFor(if HasPrefix() then prefix[..] else [], RawKey())
      ensures r.Success? && !HasPrefix() && serializer.None? ==> r.value == keyElement.bytes
      ensures r.Success? && HasPrefix() ==> fresh(r.value)
      ensures prefix != null ==> prefix[..] == old(prefix[..])
    {
      var raw := SerializeKeyElement();
      if raw.Failure? {
        return raw;
      }
      var rawKey := raw.value;
      if !HasPrefix() {
        return Success(rawKey);
      }
      r := Prefixed(prefix, rawKey);
    }

    /** build: the key bytes, and a hasPrefix flag that is true exactly when the prefix was put in front. */
    method Build() returns (r: Result<RedisCacheKey, Exception>)
      ensures !Serializable() ==> r == Failure(NullPointer)
      ensures Serializable() ==> (r.Failure? <==> HasPrefix() && prefix.Length + |RawKey()| > INT_MAX)
      ensures Serializable() && r.Failure? ==> r.error == NegativeArraySize
      ensures r.Success? ==> fresh(r.value) && r.value.hasPrefix == HasPrefix()
      ensures r.Success? && r.value.hasPrefix ==>
        fresh(r.value.keyBytes) && r.value.keyBytes[..] == KeyBytesFor(prefix[..], RawKey()) && |prefix[..]| > 0
      ensures r.Success? && !r.value.hasPrefix ==> r.value.keyBytes[..] == RawKey()
      ensures r.Success? && !HasPrefix() && serializer.None? ==> r.value.keyBytes == keyElement.bytes
      ensures r.Success? ==>
        && r.value.Valid() && r.value.rawKey == RawKey()
        && r.value.prefixUsed == if HasPrefix() then prefix[..] else []
    {
      var keyBytes := GetKeyBytes();
      if keyBytes.Failure? {
        return Failure(keyBytes.error);
      }
      var key := new RedisCacheKey(keyBytes.value, HasPrefix(), if HasPrefix() then prefix[..] else [], RawKey());
      return Success(key);
    }
  }
}
