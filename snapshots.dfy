/**
 * The logical state of one map instance as values: the directory (`positions`),
 * the decode cache (`cache`) and the bytes of the content region; and the
 * operations on it that build a new state or only read one.
 */
module Snapshots {
  import opened Wrappers
  import opened Buffers
  import opened Descriptors
  import opened Layout

  /** The host callbacks: `encodeFn`, `decodeFn` and `Util.hasheq`. */
  datatype Codec<!V> = Codec(encode: V -> seq<byte>, decode: seq<byte> -> V, hasheq: V -> int32)

  /** Directory, decode cache (None is a memoised `null`) and content region. */
  datatype Snapshot<V> = Snapshot(dir: map<UUID, int64>, cache: map<UUID, Option<V>>, content: seq<byte>)

  /** The content region of a buffer that fits a Java array, after its 4-byte header size. */
  predicate Sized<V>(s: Snapshot<V>)
  {
    |s.content| < TWO_31 - 4
  }

  /** The payload of the record a descriptor names, `[pos+4, pos+size)`, lies inside a content region of n bytes. */
  predicate PayloadInRange(d: int64, n: int)
  {
    4 <= SizeOf(d) && 0 <= OffsetOf(d) + 4 && OffsetOf(d) + SizeOf(d) <= n
  }

  /** The whole record, stored hash included, lies inside a content region of n bytes. */
  predicate Readable(d: int64, n: int)
  {
    PayloadInRange(d, n) && 0 <= OffsetOf(d)
  }

  /** The encoded payload of a record: its bytes after the 4-byte stored hash. */
  function Payload(d: int64, content: seq<byte>): (bs: seq<byte>)
    requires PayloadInRange(d, |content|)
    ensures |bs| == SizeOf(d) - 4
  {
    content[OffsetOf(d) + 4..OffsetOf(d) + SizeOf(d)]
  }

  /** The bytes of the whole record a descriptor names: stored hash, then payload. */
  function StoredRecord(d: int64, content: seq<byte>): (bs: seq<byte>)
    requires Readable(d, |content|)
    ensures |bs| == SizeOf(d)
  {
    content[OffsetOf(d)..OffsetOf(d) + SizeOf(d)]
  }

  /** The 4-byte hash stored at the front of a record. */
  function StoredHash(d: int64, content: seq<byte>): int32
    requires Readable(d, |content|)
  {
    ReadInt(content[OffsetOf(d)..OffsetOf(d) + 4])
  }

  /**
   * What `get` returns: the cached value on a hit; otherwise the decoded bytes
   * `content[pos+4, pos+size)` of the key's record; `null` for an unknown key.
   * Only the payload is bounds-checked, not the stored hash in front of it.
   * `new byte[size-4]` fails on a negative length and `content.get` on a range
   * outside the content region.
   */
  function Lookup<V>(s: Snapshot<V>, key: UUID, decode: seq<byte> -> V): (r: Result<Option<V>, Fault>)
    ensures key in s.cache ==> r == Ok(s.cache[key])
    ensures key !in s.cache && key !in s.dir ==> r == Ok(None)
    ensures key !in s.cache && key in s.dir && Sized(s) ==> (r.Ok? <==> PayloadInRange(s.dir[key], |s.content|))
    ensures key !in s.cache && key in s.dir && Sized(s) && PayloadInRange(s.dir[key], |s.content|) ==>
      r == Ok(Some(decode(Payload(s.dir[key], s.content))))
  {
    if key in s.cache then Ok(s.cache[key])
    else if key in s.dir then
      var met := s.dir[key];
      var size := SizeOf(met);
      var pos := OffsetOf(met);
      var len := Wrap32(size - 4);
      if len < 0 then Err(NegativeArraySize)
      else
        var from := Wrap32(pos + 4);
        if !InRange(from, len, |s.content|) then Err(IndexOutOfBounds)
        else Ok(Some(decode(s.content[from..from + len])))
    else Ok(None)
  }

  /**
   * A miss whose payload lies outside the content fails: with NegativeArraySize
   * when `size-4` is negative as an int, otherwise (a size that wraps past
   * -2^31, or a range that leaves the content) with IndexOutOfBounds.
   */
  lemma LookupFault<V>(s: Snapshot<V>, key: UUID, decode: seq<byte> -> V)
    requires key !in s.cache && key in s.dir && Sized(s) && !PayloadInRange(s.dir[key], |s.content|)
    ensures Lookup(s, key, decode)
         == Err(if -TWO_31 + 4 <= SizeOf(s.dir[key]) < 4 then NegativeArraySize else IndexOutOfBounds)
  {
  }

  /**
   * A sentinel descriptor with no cached value (a header record holding -1L)
   * makes get fail: its size field is -1, so `new byte[size-4]` is negative.
   */
  lemma LookupStraySentinel<V>(s: Snapshot<V>, key: UUID, decode: seq<byte> -> V)
    requires key !in s.cache && key in s.dir && s.dir[key] == PENDING
    ensures Lookup(s, key, decode) == Err(NegativeArraySize)
  {
    PendingFields();
  }

  /** A readable record is looked up as the decoding of its bytes after the stored hash. */
  lemma LookupOfRecord<V>(s: Snapshot<V>, key: UUID, decode: seq<byte> -> V)
    requires key !in s.cache && key in s.dir && Sized(s) && Readable(s.dir[key], |s.content|)
    ensures Payload(s.dir[key], s.content) == StoredRecord(s.dir[key], s.content)[4..]
    ensures Lookup(s, key, decode) == Ok(Some(decode(StoredRecord(s.dir[key], s.content)[4..])))
  {
  }

  /** The state `get` leaves behind: a successful miss stores its result in the cache. */
  function AfterGet<V>(s: Snapshot<V>, key: UUID, decode: seq<byte> -> V): (t: Snapshot<V>)
    ensures t.dir == s.dir && t.content == s.content
    ensures Lookup(s, key, decode).Ok? ==> key in t.cache && t.cache[key] == Lookup(s, key, decode).value
    ensures Lookup(s, key, decode).Err? ==> t.cache == s.cache
    ensures forall j :: j != key ==> (j in t.cache <==> j in s.cache)
    ensures forall j :: j != key && j in s.cache ==> t.cache[j] == s.cache[j]
  {
    var r := Lookup(s, key, decode);
    if key !in s.cache && r.Ok? then s.(cache := s.cache[key := r.value]) else s
  }

  /**
   * Decoding happens at most once per key: after one `get`, a second `get` of
   * the same key is a cache hit, returns the same value whatever the decoder,
   * and changes nothing more.
   */
  lemma GetMemoises<V>(s: Snapshot<V>, key: UUID, decode: seq<byte> -> V, other: seq<byte> -> V)
    requires Lookup(s, key, decode).Ok?
    ensures key in AfterGet(s, key, decode).cache
    ensures Lookup(AfterGet(s, key, decode), key, other) == Lookup(s, key, decode)
    ensures AfterGet(AfterGet(s, key, decode), key, other) == AfterGet(s, key, decode)
  {
  }

  /** Filling the cache is not a logical change: every key still looks up to the same result. */
  lemma GetIsInvisible<V>(s: Snapshot<V>, key: UUID, decode: seq<byte> -> V, j: UUID)
    ensures Lookup(AfterGet(s, key, decode), j, decode) == Lookup(s, j, decode)
  {
  }

  /**
   * `getHashEq`: the hash of the cached value, or else the 4-byte hash stored at
   * the key's offset. A cached `null` and an unknown key both dereference null.
   */
  function HashEq<V>(s: Snapshot<V>, key: UUID, hasheq: V -> int32): (r: Result<int32, Fault>)
    ensures key in s.cache && s.cache[key].Some? ==> r == Ok(hasheq(s.cache[key].value))
    ensures (key in s.cache && s.cache[key].None?) || (key !in s.cache && key !in s.dir) ==> r == Err(NullPointer)
    ensures key !in s.cache && key in s.dir ==>
      (r.Ok? <==> 0 <= OffsetOf(s.dir[key]) <= |s.content| - 4)
    ensures key !in s.cache && key in s.dir && Readable(s.dir[key], |s.content|) ==>
      r == Ok(StoredHash(s.dir[key], s.content))
    ensures key !in s.cache && key in s.dir && r.Ok? ==>
      r.value == ReadInt(s.content[OffsetOf(s.dir[key])..OffsetOf(s.dir[key]) + 4])
    ensures key !in s.cache && key in s.dir && r.Err? ==> r.error == IndexOutOfBounds
  {
    if key in s.cache then
      match s.cache[key]
      case Some(v) => Ok(hasheq(v))
      case None => Err(NullPointer)
    else if key !in s.dir then Err(NullPointer)
    else
      var pos := OffsetOf(s.dir[key]);
      if !InRange(pos, 4, |s.content|) then Err(IndexOutOfBounds)
      else Ok(ReadInt(s.content[pos..pos + 4]))
  }

  /** A readable record's hash is read from the first four bytes of its bytes. */
  lemma HashEqOfRecord<V>(s: Snapshot<V>, key: UUID, hasheq: V -> int32)
    requires key !in s.cache && key in s.dir && Readable(s.dir[key], |s.content|)
    ensures StoredHash(s.dir[key], s.content) == ReadInt(StoredRecord(s.dir[key], s.content)[..4])
    ensures HashEq(s, key, hasheq) == Ok(ReadInt(StoredRecord(s.dir[key], s.content)[..4]))
  {
    var d := s.dir[key];
    assert s.content[OffsetOf(d)..OffsetOf(d) + 4] == StoredRecord(d, s.content)[..4];
  }

  /** `set`: the key's descriptor becomes the sentinel and its value goes into the cache. */
  function Assoc<V>(s: Snapshot<V>, key: UUID, val: V): (t: Snapshot<V>)
    ensures t.dir.Keys == s.dir.Keys + {key}
    ensures t.content == s.content
  {
    Snapshot(s.dir[key := PENDING], s.cache[key := Some(val)], s.content)
  }

  /** `without`: the key leaves both the directory and the cache. */
  function Dissoc<V>(s: Snapshot<V>, key: UUID): (t: Snapshot<V>)
    ensures t.dir.Keys == s.dir.Keys - {key}
    ensures t.content == s.content
  {
    Snapshot(s.dir - {key}, s.cache - {key}, s.content)
  }

  /** After `set(k, v)`, `get(k)` is `v` and every other key reads as before. */
  lemma AssocLookup<V>(s: Snapshot<V>, key: UUID, val: V, j: UUID, decode: seq<byte> -> V)
    ensures Lookup(Assoc(s, key, val), j, decode) == if j == key then Ok(Some(val)) else Lookup(s, j, decode)
  {
  }

  /** After `without(k)`, `get(k)` is null and every other key reads as before. */
  lemma DissocLookup<V>(s: Snapshot<V>, key: UUID, j: UUID, decode: seq<byte> -> V)
    ensures Lookup(Dissoc(s, key), j, decode) == if j == key then Ok(None) else Lookup(s, j, decode)
  {
  }

  /** An entry compaction can write: a pending value is in the cache, a stored record is readable. */
  predicate EntrySound<V>(s: Snapshot<V>, key: UUID)
    requires key in s.dir
  {
    if s.dir[key] == PENDING then key in s.cache && s.cache[key].Some?
    else Readable(s.dir[key], |s.content|)
  }

  /** Every directory entry is sound. */
  predicate Sound<V>(s: Snapshot<V>)
  {
    forall key :: key in s.dir ==> EntrySound(s, key)
  }

  /**
   * The cache agrees with the buffer: a cached stored entry holds the decoding
   * of its payload, and a cached key outside the directory is a memoised null.
   */
  ghost predicate Coherent<V>(s: Snapshot<V>, decode: seq<byte> -> V)
  {
    && Sound(s)
    && (forall key :: key in s.dir && key in s.cache && s.dir[key] != PENDING ==>
          s.cache[key] == Some(decode(Payload(s.dir[key], s.content))))
    && (forall key :: key in s.cache && key !in s.dir ==> s.cache[key] == None)
  }

  /** A coherent state never fails a lookup, and finds a value exactly for the keys it holds. */
  lemma CoherentLookup<V>(s: Snapshot<V>, key: UUID, decode: seq<byte> -> V)
    requires Coherent(s, decode) && Sized(s)
    ensures Lookup(s, key, decode).Ok?
    ensures Lookup(s, key, decode).value.Some? <==> key in s.dir
  {
    if key in s.dir {
      assert EntrySound(s, key);
    }
  }

  /** `set` keeps the cache coherent with the buffer. */
  lemma AssocCoherent<V>(s: Snapshot<V>, key: UUID, val: V, decode: seq<byte> -> V)
    requires Coherent(s, decode)
    ensures Coherent(Assoc(s, key, val), decode)
  {
    var t := Assoc(s, key, val);
    forall j | j in t.dir ensures EntrySound(t, j) {
      if j != key {
        assert EntrySound(s, j);
      }
    }
  }

  /** `without` keeps the cache coherent with the buffer. */
  lemma DissocCoherent<V>(s: Snapshot<V>, key: UUID, decode: seq<byte> -> V)
    requires Coherent(s, decode)
    ensures Coherent(Dissoc(s, key), decode)
  {
    var t := Dissoc(s, key);
    forall j | j in t.dir ensures EntrySound(t, j) {
      assert EntrySound(s, j);
    }
  }

  /** `get` keeps the cache coherent with the buffer: what it memoises is the decoding of the payload. */
  lemma AfterGetCoherent<V>(s: Snapshot<V>, key: UUID, decode: seq<byte> -> V)
    requires Coherent(s, decode) && Sized(s)
    ensures Coherent(AfterGet(s, key, decode), decode)
  {
    var t := AfterGet(s, key, decode);
    forall j | j in t.dir ensures EntrySound(t, j) {
      assert EntrySound(s, j);
    }
    if key in s.dir && key !in s.cache {
      assert EntrySound(s, key);
    }
  }

  /** The state createFromBlob builds: the parsed directory, an empty cache and the bytes after the header. */
  function FromBlob<V>(blob: seq<byte>): (r: Result<Snapshot<V>, Fault>)
    ensures r.Ok? <==> 4 <= |blob| && 0 <= ReadInt(blob[..4]) <= |blob| - 4
    ensures r.Ok? ==> r.value.cache == map[] && |r.value.content| == |blob| - 4 - ReadInt(blob[..4])
    ensures r.Ok? && |blob| < TWO_31 ==> Sized(r.value)
  {
    match ParseBlob(blob)
    case Err(e) => Err(e)
    case Ok(p) => Ok(Snapshot(p.dir, map[], ContentRegion(blob, p.headerSize)))
  }
}
