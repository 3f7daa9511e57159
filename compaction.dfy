/**
 * What compaction produces, as functions of the state it starts from and of the
 * directory's iteration order: record sizes, running offsets, the relocated
 * directory, the new content region and the new buffer; and the lemmas that
 * say the records tile the region and the data survives.
 */
module Compaction {
  import opened Wrappers
  import opened Buffers
  import opened Descriptors
  import opened Layout
  import opened Snapshots

  /** No key is visited twice. */
  predicate Distinct(order: seq<UUID>)
  {
    forall i, j :: 0 <= i < j < |order| ==> order[i] != order[j]
  }

  /** `order` is an iteration order of the key set `keys`. */
  ghost predicate Enumerates(order: seq<UUID>, keys: set<UUID>)
  {
    Distinct(order) && forall k :: k in keys <==> k in order
  }

  /** Every key of `order` is a sound directory entry. */
  predicate Writable<V>(s: Snapshot<V>, order: seq<UUID>)
  {
    Sound(s) && forall k :: k in order ==> k in s.dir
  }

  /** The record size: a stored record keeps its size, a pending one takes payload plus the 4-byte hash. */
  function RecordSize<V>(s: Snapshot<V>, key: UUID, codec: Codec<V>): (n: nat)
    requires key in s.dir && EntrySound(s, key)
    ensures n >= 4
  {
    if s.dir[key] != PENDING then SizeOf(s.dir[key]) else |codec.encode(s.cache[key].value)| + 4
  }

  /** The record bytes: a stored record verbatim, a pending one as its hash followed by its encoding. */
  function Record<V>(s: Snapshot<V>, key: UUID, codec: Codec<V>): (bs: seq<byte>)
    requires key in s.dir && EntrySound(s, key)
    ensures |bs| == RecordSize(s, key, codec)
  {
    var d := s.dir[key];
    if d != PENDING then StoredRecord(d, s.content)
    else
      var v := s.cache[key].value;
      IntBytes(codec.hasheq(v)) + codec.encode(v)
  }

  /** The running content size over `order` (both passes agree on it). */
  function Total<V>(s: Snapshot<V>, order: seq<UUID>, codec: Codec<V>): nat
    requires Writable(s, order)
  {
    if order == [] then 0
    else Total(s, order[..|order| - 1], codec) + RecordSize(s, order[|order| - 1], codec)
  }

  /** The descriptor of a record written at `position`: rebased if stored, freshly packed if pending. */
  function NewDescriptor<V>(s: Snapshot<V>, key: UUID, position: int64, codec: Codec<V>): int64
    requires key in s.dir && EntrySound(s, key)
    requires RecordSize(s, key, codec) < TWO_31
  {
    var d := s.dir[key];
    if d != PENDING then Rebase(d, position) else Pack(RecordSize(s, key, codec), position)
  }

  /** The directory after the second pass: each key of `order` at its running offset. */
  function Relocated<V>(s: Snapshot<V>, order: seq<UUID>, codec: Codec<V>): map<UUID, int64>
    requires Writable(s, order) && Total(s, order, codec) < TWO_31
  {
    if order == [] then map[]
    else
      var init, last := order[..|order| - 1], order[|order| - 1];
      Relocated(s, init, codec)[last := NewDescriptor(s, last, Total(s, init, codec), codec)]
  }

  /** The new content region: the records of `order`, back to back. */
  function ContentOf<V>(s: Snapshot<V>, order: seq<UUID>, codec: Codec<V>): (bs: seq<byte>)
    requires Writable(s, order)
    ensures |bs| == Total(s, order, codec)
  {
    if order == [] then []
    else ContentOf(s, order[..|order| - 1], codec) + Record(s, order[|order| - 1], codec)
  }

  /** What compaction needs: sound entries, an iteration order of the directory, and a buffer a Java int can size. */
  ghost predicate Compactable<V>(s: Snapshot<V>, order: seq<UUID>, codec: Codec<V>)
  {
    && Sound(s)
    && Enumerates(order, s.dir.Keys)
    && 4 + RECORD_SIZE * |order| + Total(s, order, codec) < TWO_31
  }

  /** The state compaction installs: relocated directory, same cache, new content region. */
  function Compacted<V>(s: Snapshot<V>, order: seq<UUID>, codec: Codec<V>): Snapshot<V>
    requires Compactable(s, order, codec)
  {
    Snapshot(Relocated(s, order, codec), s.cache, ContentOf(s, order, codec))
  }

  /** The buffer compaction allocates and fills: `[24*n][header][content]`. */
  function CompactedBlob<V>(s: Snapshot<V>, order: seq<UUID>, codec: Codec<V>): (bs: seq<byte>)
    requires Compactable(s, order, codec)
    ensures |bs| == 4 + RECORD_SIZE * |order| + Total(s, order, codec)
  {
    RelocatedKeys(s, order, codec);
    SerializeBlob(order, Relocated(s, order, codec), ContentOf(s, order, codec))
  }

  // ---------------------------------------------------------------------
  // Running sums

  /** Extending a prefix by one key adds that key's record size. */
  lemma TotalStep<V>(s: Snapshot<V>, order: seq<UUID>, codec: Codec<V>, i: nat)
    requires Writable(s, order) && i < |order|
    ensures Total(s, order[..i + 1], codec) == Total(s, order[..i], codec) + RecordSize(s, order[i], codec)
  {
    assert order[..i + 1][..i] == order[..i];
  }

  /** Extending a prefix by one key appends that key's record to the content. */
  lemma ContentOfStep<V>(s: Snapshot<V>, order: seq<UUID>, codec: Codec<V>, i: nat)
    requires Writable(s, order) && i < |order|
    ensures ContentOf(s, order[..i + 1], codec) == ContentOf(s, order[..i], codec) + Record(s, order[i], codec)
  {
    assert order[..i + 1][..i] == order[..i];
  }

  /** Extending a prefix by one key adds that key's new descriptor to the relocated directory. */
  lemma RelocatedStep<V>(s: Snapshot<V>, order: seq<UUID>, codec: Codec<V>, i: nat)
    requires Writable(s, order) && Total(s, order, codec) < TWO_31 && i < |order|
    ensures Total(s, order[..i], codec) + RecordSize(s, order[i], codec) == Total(s, order[..i + 1], codec) <= Total(s, order, codec)
    ensures Relocated(s, order[..i + 1], codec)
         == Relocated(s, order[..i], codec)[order[i] := NewDescriptor(s, order[i], Total(s, order[..i], codec), codec)]
  {
    TotalStep(s, order, codec, i);
    TotalPrefix(s, order, codec, i + 1);
    assert order[..i + 1][..i] == order[..i];
  }

  /** A prefix never sums to more than the whole order. */
  lemma {:induction false} TotalPrefix<V>(s: Snapshot<V>, order: seq<UUID>, codec: Codec<V>, i: nat)
    requires Writable(s, order) && i <= |order|
    ensures Writable(s, order[..i])
    ensures Total(s, order[..i], codec) <= Total(s, order, codec)
  {
    if i < |order| {
      var init := order[..|order| - 1];
      assert init[..i] == order[..i];
      TotalPrefix(s, init, codec, i);
    } else {
      assert order[..i] == order;
    }
  }

  /** The keys of the relocated directory are the keys of `order`. */
  lemma {:induction false} RelocatedKeys<V>(s: Snapshot<V>, order: seq<UUID>, codec: Codec<V>)
    requires Writable(s, order) && Total(s, order, codec) < TWO_31
    ensures forall k :: k in Relocated(s, order, codec) <==> k in order
  {
    if order != [] {
      var init := order[..|order| - 1];
      RelocatedKeys(s, init, codec);
      assert order == init + [order[|order| - 1]];
    }
  }

  /** In a distinct order, the i-th key is written at the running total of the keys before it. */
  lemma {:induction false} RelocatedAt<V>(s: Snapshot<V>, order: seq<UUID>, codec: Codec<V>, i: nat)
    requires Writable(s, order) && Total(s, order, codec) < TWO_31
    requires Distinct(order) && i < |order|
    ensures order[i] in Relocated(s, order, codec)
    ensures Total(s, order[..i], codec) + RecordSize(s, order[i], codec) <= Total(s, order, codec)
    ensures Relocated(s, order, codec)[order[i]] == NewDescriptor(s, order[i], Total(s, order[..i], codec), codec)
  {
    var init := order[..|order| - 1];
    TotalPrefix(s, order, codec, i + 1);
    TotalStep(s, order, codec, i);
    if i < |order| - 1 {
      assert init[..i] == order[..i];
      TotalPrefix(s, order, codec, |order| - 1);
      RelocatedAt(s, init, codec, i);
    } else {
      assert order[..i] == init;
    }
  }

  /** The content written for a prefix of `order` is a prefix of the whole content region. */
  lemma {:induction false} ContentOfPrefix<V>(s: Snapshot<V>, order: seq<UUID>, codec: Codec<V>, i: nat)
    requires Writable(s, order) && i <= |order|
    ensures Total(s, order[..i], codec) <= Total(s, order, codec)
    ensures ContentOf(s, order, codec)[..Total(s, order[..i], codec)] == ContentOf(s, order[..i], codec)
  {
    TotalPrefix(s, order, codec, i);
    if i < |order| {
      var init := order[..|order| - 1];
      assert init[..i] == order[..i];
      ContentOfPrefix(s, init, codec, i);
      var a := ContentOf(s, init, codec);
      assert ContentOf(s, order, codec) == a + Record(s, order[|order| - 1], codec);
      assert ContentOf(s, order, codec)[..Total(s, order[..i], codec)] == a[..Total(s, order[..i], codec)];
    } else {
      assert order[..i] == order;
    }
  }

  /** The i-th record sits in the new content region at the running total of the records before it. */
  lemma ContentOfAt<V>(s: Snapshot<V>, order: seq<UUID>, codec: Codec<V>, i: nat)
    requires Writable(s, order) && i < |order|
    ensures Total(s, order[..i], codec) <= Total(s, order[..i + 1], codec) <= Total(s, order, codec)
    ensures ContentOf(s, order, codec)[Total(s, order[..i], codec)..Total(s, order[..i + 1], codec)] == Record(s, order[i], codec)
  {
    TotalStep(s, order, codec, i);
    ContentOfPrefix(s, order, codec, i + 1);
    var c := ContentOf(s, order, codec);
    var p, q := Total(s, order[..i], codec), Total(s, order[..i + 1], codec);
    assert order[..i + 1][..i] == order[..i];
    assert ContentOf(s, order[..i + 1], codec) == ContentOf(s, order[..i], codec) + Record(s, order[i], codec);
    assert c[p..q] == c[..q][p..];
  }

  // ---------------------------------------------------------------------
  // Layout of the compacted state

  /**
   * The records tile the new content region: the i-th key gets a real (never
   * pending) descriptor whose size is its record size and whose offset is the
   * sum of the sizes before it, so the first starts at 0, each ends where the
   * next begins, and the last ends at the end of the region.
   */
  lemma CompactedTiling<V>(s: Snapshot<V>, order: seq<UUID>, codec: Codec<V>, i: nat)
    requires Compactable(s, order, codec) && i < |order|
    ensures var dir := Relocated(s, order, codec);
      && order[i] in dir
      && dir[order[i]] != PENDING
      && SizeOf(dir[order[i]]) == RecordSize(s, order[i], codec)
      && OffsetOf(dir[order[i]]) == Total(s, order[..i], codec)
      && (i == 0 ==> OffsetOf(dir[order[i]]) == 0)
      && (i + 1 < |order| ==>
            order[i + 1] in dir && OffsetOf(dir[order[i + 1]]) == OffsetOf(dir[order[i]]) + SizeOf(dir[order[i]]))
      && (i + 1 == |order| ==> OffsetOf(dir[order[i]]) + SizeOf(dir[order[i]]) == |ContentOf(s, order, codec)|)
  {
    DescriptorAt(s, order, codec, i);
    TotalStep(s, order, codec, i);
    if i + 1 < |order| {
      DescriptorAt(s, order, codec, i + 1);
    } else {
      assert order[..i + 1] == order;
    }
  }

  /** The i-th relocated descriptor: its fields are the record size and the running total. */
  lemma DescriptorAt<V>(s: Snapshot<V>, order: seq<UUID>, codec: Codec<V>, i: nat)
    requires Compactable(s, order, codec) && i < |order|
    ensures order[i] in Relocated(s, order, codec)
    ensures var d := Relocated(s, order, codec)[order[i]];
      && d != PENDING
      && SizeOf(d) == RecordSize(s, order[i], codec)
      && OffsetOf(d) == Total(s, order[..i], codec)
  {
    RelocatedAt(s, order, codec, i);
    var key, p := order[i], Total(s, order[..i], codec);
    TotalPrefix(s, order, codec, i);
    TotalPrefix(s, order, codec, i + 1);
    TotalStep(s, order, codec, i);
    var d := Relocated(s, order, codec)[key];
    if s.dir[key] != PENDING {
      RebaseFields(s.dir[key], p);
    } else {
      PackFields(RecordSize(s, key, codec), p);
    }
    PackIsPending(SizeOf(d), OffsetOf(d));
    PackUnpack(d);
  }

  /**
   * Compaction preserves data: each key's new record is readable in the new
   * region and holds the old record byte for byte if it was stored, or its
   * hash followed by its encoding if it was pending.
   */
  lemma CompactedRecord<V>(s: Snapshot<V>, order: seq<UUID>, codec: Codec<V>, key: UUID)
    requires Compactable(s, order, codec) && key in s.dir
    ensures var t := Compacted(s, order, codec);
      && key in t.dir
      && Readable(t.dir[key], |t.content|)
      && SizeOf(t.dir[key]) == RecordSize(s, key, codec)
      && StoredRecord(t.dir[key], t.content) == Record(s, key, codec)
  {
    var i :| 0 <= i < |order| && order[i] == key;
    RecordAt(s, order, codec, i);
  }

  /** The record of the i-th key of `order`, read back from the new content region. */
  lemma RecordAt<V>(s: Snapshot<V>, order: seq<UUID>, codec: Codec<V>, i: nat)
    requires Compactable(s, order, codec) && i < |order|
    ensures order[i] in Relocated(s, order, codec)
    ensures var d, c := Relocated(s, order, codec)[order[i]], ContentOf(s, order, codec);
      && Readable(d, |c|) && SizeOf(d) == RecordSize(s, order[i], codec) && StoredRecord(d, c) == Record(s, order[i], codec)
  {
    DescriptorAt(s, order, codec, i);
    ContentOfAt(s, order, codec, i);
    TotalStep(s, order, codec, i);
    StoredAt(Relocated(s, order, codec)[order[i]], ContentOf(s, order, codec), Total(s, order[..i], codec), Total(s, order[..i + 1], codec));
  }

  /** A descriptor naming `[p, q)` reads back `c[p..q]`. */
  lemma StoredAt(d: int64, c: seq<byte>, p: nat, q: nat)
    requires OffsetOf(d) == p && p + 4 <= q && SizeOf(d) == q - p && q <= |c|
    ensures Readable(d, |c|) && StoredRecord(d, c) == c[p..q]
  {
  }

  /** A compacted state is sound and fits a Java array, with every entry stored. */
  lemma CompactedSound<V>(s: Snapshot<V>, order: seq<UUID>, codec: Codec<V>)
    requires Compactable(s, order, codec)
    ensures Sound(Compacted(s, order, codec)) && Sized(Compacted(s, order, codec))
    ensures forall k :: k in Compacted(s, order, codec).dir <==> k in s.dir
    ensures forall k :: k in Compacted(s, order, codec).dir ==> Compacted(s, order, codec).dir[k] != PENDING
  {
    var t := Compacted(s, order, codec);
    RelocatedKeys(s, order, codec);
    forall k | k in t.dir ensures EntrySound(t, k) && t.dir[k] != PENDING {
      CompactedRecord(s, order, codec, k);
      var i :| 0 <= i < |order| && order[i] == k;
      DescriptorAt(s, order, codec, i);
    }
  }

  /** Compaction is not a logical change: every key looks up to the same result as before. */
  lemma CompactedLookup<V>(s: Snapshot<V>, order: seq<UUID>, codec: Codec<V>, key: UUID)
    requires Compactable(s, order, codec) && Sized(s)
    ensures Lookup(Compacted(s, order, codec), key, codec.decode) == Lookup(s, key, codec.decode)
  {
    var t := Compacted(s, order, codec);
    CompactedSound(s, order, codec);
    if key in s.dir && key !in s.cache {
      assert EntrySound(s, key);
      CompactedRecord(s, order, codec, key);
      LookupOfRecord(s, key, codec.decode);
      LookupOfRecord(t, key, codec.decode);
    }
  }

  // ---------------------------------------------------------------------
  // The serialized form

  /**
   * Compaction keeps the cache coherent with the new buffer, so the instance
   * stays usable after toBlob: a cached stored value is the decoding of its
   * copied record, and a cached pending value decodes from its encoding.
   */
  lemma CompactedCoherent<V(!new)>(s: Snapshot<V>, order: seq<UUID>, codec: Codec<V>)
    requires Compactable(s, order, codec) && Coherent(s, codec.decode) && Inverse(codec)
    ensures Coherent(Compacted(s, order, codec), codec.decode)
  {
    var t := Compacted(s, order, codec);
    CompactedSound(s, order, codec);
    forall key | key in t.dir && key in t.cache && t.dir[key] != PENDING
      ensures t.cache[key] == Some(codec.decode(Payload(t.dir[key], t.content)))
    {
      assert EntrySound(s, key);
      CompactedRecord(s, order, codec, key);
      assert Payload(t.dir[key], t.content) == StoredRecord(t.dir[key], t.content)[4..];
      if s.dir[key] != PENDING {
        assert Payload(s.dir[key], s.content) == StoredRecord(s.dir[key], s.content)[4..];
      } else {
        assert Record(s, key, codec)[4..] == codec.encode(s.cache[key].value);
      }
    }
  }

  /** createFromBlob(toBlob()): the buffer parses back to the relocated directory and the new content region, with an empty cache. */
  lemma ReloadCompacted<V>(s: Snapshot<V>, order: seq<UUID>, codec: Codec<V>)
    requires Compactable(s, order, codec)
    ensures FromBlob<V>(CompactedBlob(s, order, codec)) == Ok(Snapshot(Relocated(s, order, codec), map[], ContentOf(s, order, codec)))
  {
    RelocatedKeys(s, order, codec);
    ParseSerialized(order, Relocated(s, order, codec), ContentOf(s, order, codec));
  }

  /** The decoder undoes the encoder. */
  ghost predicate Inverse<V(!new)>(codec: Codec<V>)
  {
    forall v :: codec.decode(codec.encode(v)) == v
  }

  /**
   * The round-trip law: after toBlob and createFromBlob, `get` returns for
   * every key what it returned before, given a coherent cache and a decoder
   * that undoes the encoder.
   */
  lemma RoundTrip<V(!new)>(s: Snapshot<V>, order: seq<UUID>, codec: Codec<V>, key: UUID)
    requires Compactable(s, order, codec) && Sized(s) && Coherent(s, codec.decode) && Inverse(codec)
    ensures FromBlob<V>(CompactedBlob(s, order, codec)).Ok?
    ensures Lookup(FromBlob<V>(CompactedBlob(s, order, codec)).value, key, codec.decode) == Lookup(s, key, codec.decode)
  {
    ReloadCompacted(s, order, codec);
    ReloadedLookup(s, order, codec, key);
  }

  /** The reloaded state, as the relocated directory and new content region with an empty cache. */
  function Reloaded<V>(s: Snapshot<V>, order: seq<UUID>, codec: Codec<V>): Snapshot<V>
    requires Compactable(s, order, codec)
  {
    Snapshot(Relocated(s, order, codec), map[], ContentOf(s, order, codec))
  }

  lemma ReloadedLookup<V(!new)>(s: Snapshot<V>, order: seq<UUID>, codec: Codec<V>, key: UUID)
    requires Compactable(s, order, codec) && Sized(s) && Coherent(s, codec.decode) && Inverse(codec)
    ensures Lookup(Reloaded(s, order, codec), key, codec.decode) == Lookup(s, key, codec.decode)
  {
    var r := Reloaded(s, order, codec);
    CompactedSound(s, order, codec);
    if key in s.dir {
      assert EntrySound(s, key);
      CompactedRecord(s, order, codec, key);
      LookupOfRecord(r, key, codec.decode);
      if s.dir[key] != PENDING {
        LookupOfRecord(s.(cache := map[]), key, codec.decode);
      } else {
        var v := s.cache[key].value;
        assert Record(s, key, codec)[4..] == codec.encode(v);
      }
    }
  }

  /**
   * The hashes compaction stores: after toBlob and createFromBlob, getHashEq of
   * a stored entry reads the hash it had before, and of a pending entry reads
   * the hash of its value, so neither needs a decode.
   */
  lemma ReloadedHashes<V>(s: Snapshot<V>, order: seq<UUID>, codec: Codec<V>, key: UUID)
    requires Compactable(s, order, codec) && key in s.dir
    ensures FromBlob<V>(CompactedBlob(s, order, codec)).Ok?
    ensures HashEq(FromBlob<V>(CompactedBlob(s, order, codec)).value, key, codec.hasheq)
         == Ok(if s.dir[key] == PENDING then codec.hasheq(s.cache[key].value) else StoredHash(s.dir[key], s.content))
  {
    ReloadCompacted(s, order, codec);
    var r := Reloaded(s, order, codec);
    CompactedSound(s, order, codec);
    assert EntrySound(s, key);
    CompactedRecord(s, order, codec, key);
    HashEqOfRecord(r, key, codec.hasheq);
    if s.dir[key] != PENDING {
      HashEqOfRecord(s.(cache := map[]), key, codec.hasheq);
    } else {
      var v := s.cache[key].value;
      assert Record(s, key, codec)[..4] == IntBytes(codec.hasheq(v));
      ReadIntBytes(codec.hasheq(v));
    }
  }

  /** A key's entry after compaction is written back exactly as it is when compacted again. */
  lemma RecompactEntry<V>(s: Snapshot<V>, order: seq<UUID>, codec: Codec<V>, i: nat)
    requires Compactable(s, order, codec) && i < |order|
    ensures Sound(Compacted(s, order, codec)) && Writable(Compacted(s, order, codec), order)
    ensures Total(s, order[..i], codec) + RecordSize(s, order[i], codec) <= Total(s, order, codec)
    ensures RecordSize(Compacted(s, order, codec), order[i], codec) == RecordSize(s, order[i], codec)
    ensures Record(Compacted(s, order, codec), order[i], codec) == Record(s, order[i], codec)
    ensures NewDescriptor(Compacted(s, order, codec), order[i], Total(s, order[..i], codec), codec)
         == NewDescriptor(s, order[i], Total(s, order[..i], codec), codec)
  {
    var t := Compacted(s, order, codec);
    var key, p := order[i], Total(s, order[..i], codec);
    CompactedSound(s, order, codec);
    assert EntrySound(s, key);
    CompactedRecord(s, order, codec, key);
    DescriptorAt(s, order, codec, i);
    RelocatedAt(s, order, codec, i);
    var d := NewDescriptor(s, key, p, codec);
    assert t.dir[key] == d;
    if s.dir[key] != PENDING {
      RebaseIdempotent(s.dir[key], p);
    } else {
      RebaseFields(d, p);
      PackFields(RecordSize(s, key, codec), p);
    }
  }

  /** Two states lay `key` out alike at `position`: the same record and the same new descriptor. */
  ghost predicate Alike<V>(a: Snapshot<V>, b: Snapshot<V>, key: UUID, position: int64, codec: Codec<V>)
  {
    && key in a.dir && key in b.dir && EntrySound(a, key) && EntrySound(b, key)
    && RecordSize(a, key, codec) == RecordSize(b, key, codec) < TWO_31
    && Record(a, key, codec) == Record(b, key, codec)
    && NewDescriptor(a, key, position, codec) == NewDescriptor(b, key, position, codec)
  }

  /** Two states lay every key of `order` out alike, each at its running offset in `a`. */
  ghost predicate AlikeOn<V>(a: Snapshot<V>, b: Snapshot<V>, order: seq<UUID>, codec: Codec<V>)
    requires Writable(a, order) && Total(a, order, codec) < TWO_31
  {
    if order == [] then true
    else
      var init, last := order[..|order| - 1], order[|order| - 1];
      AlikeOn(a, b, init, codec) && Alike(a, b, last, Total(a, init, codec), codec)
  }

  /** States that lay every key out alike compute the same offsets, directory and content region. */
  lemma {:induction false} AlikeLayout<V>(a: Snapshot<V>, b: Snapshot<V>, order: seq<UUID>, codec: Codec<V>)
    requires Writable(a, order) && Writable(b, order) && Total(a, order, codec) < TWO_31
    requires AlikeOn(a, b, order, codec)
    ensures Total(b, order, codec) == Total(a, order, codec)
    ensures Relocated(b, order, codec) == Relocated(a, order, codec)
    ensures ContentOf(b, order, codec) == ContentOf(a, order, codec)
  {
    if order != [] {
      AlikeLayout(a, b, order[..|order| - 1], codec);
    }
  }

  /** A compacted state lays every prefix of `order` out as the state it came from. */
  lemma {:induction false} RecompactAlike<V>(s: Snapshot<V>, order: seq<UUID>, codec: Codec<V>, n: nat)
    requires Compactable(s, order, codec) && n <= |order|
    ensures Writable(s, order[..n]) && Total(s, order[..n], codec) < TWO_31
    ensures AlikeOn(s, Compacted(s, order, codec), order[..n], codec)
  {
    TotalPrefix(s, order, codec, n);
    if n > 0 {
      assert order[..n][..n - 1] == order[..n - 1];
      RecompactAlike(s, order, codec, n - 1);
      RecompactEntry(s, order, codec, n - 1);
    }
  }

  /** A second compaction in the same order writes a byte-identical buffer. */
  lemma RecompactIsIdentity<V>(s: Snapshot<V>, order: seq<UUID>, codec: Codec<V>)
    requires Compactable(s, order, codec)
    ensures Compactable(Compacted(s, order, codec), order, codec)
    ensures Compacted(Compacted(s, order, codec), order, codec) == Compacted(s, order, codec)
    ensures CompactedBlob(Compacted(s, order, codec), order, codec) == CompactedBlob(s, order, codec)
  {
    var t := Compacted(s, order, codec);
    RecompactAlike(s, order, codec, |order|);
    assert order[..|order|] == order;
    CompactedSound(s, order, codec);
    AlikeLayout(s, t, order, codec);
  }

  // ---------------------------------------------------------------------
  // The compaction loop as the source writes it

  /** The number of pending keys in `order`. */
  function PendingCount<V>(s: Snapshot<V>, order: seq<UUID>): nat
    requires forall k :: k in order ==> k in s.dir
  {
    if order == [] then 0
    else PendingCount(s, order[..|order| - 1]) + (if s.dir[order[|order| - 1]] == PENDING then 1 else 0)
  }

  /** contentSize as ConstantMap.java:312 computes it: a pending entry adds only its encoded length. */
  function AllocatedContentAsWritten<V>(s: Snapshot<V>, order: seq<UUID>, codec: Codec<V>): nat
    requires Writable(s, order)
  {
    if order == [] then 0
    else
      var key := order[|order| - 1];
      AllocatedContentAsWritten(s, order[..|order| - 1], codec)
        + (if s.dir[key] != PENDING then SizeOf(s.dir[key]) else |codec.encode(s.cache[key].value)|)
  }

  /**
   * As written, the content buffer is four bytes short for every pending entry
   * (its stored hash), while the second pass writes the full records, so a
   * compaction with a pending entry overruns its buffer.
   */
  lemma {:induction false} AllocationShortfall<V>(s: Snapshot<V>, order: seq<UUID>, codec: Codec<V>)
    requires Writable(s, order)
    ensures AllocatedContentAsWritten(s, order, codec) + 4 * PendingCount(s, order) == Total(s, order, codec)
    ensures PendingCount(s, order) > 0 ==> AllocatedContentAsWritten(s, order, codec) < |ContentOf(s, order, codec)|
  {
    if order != [] {
      AllocationShortfall(s, order[..|order| - 1], codec);
    }
  }

  /**
   * `content.put(bval, 0, size)` as ConstantMap.java:369 writes it, with
   * `size = bval.length + 4`: a copy of `size` bytes out of `bval`.
   */
  function PayloadPutAsWritten(bval: seq<byte>): (r: Result<seq<byte>, Fault>)
  {
    CopyOut(bval, 0, |bval| + 4)
  }

  /** ByteBuffer.put(src, offset, length): the bytes taken from `src`, bounds-checked. */
  function CopyOut(src: seq<byte>, offset: int, length: int): (r: Result<seq<byte>, Fault>)
    ensures r.Ok? <==> InRange(offset, length, |src|)
    ensures r.Ok? ==> |r.value| == length
  {
    if InRange(offset, length, |src|) then Ok(src[offset..offset + length]) else Err(IndexOutOfBounds)
  }

  /** That copy always reads past the end of the encoded value. */
  lemma PayloadPutAsWrittenFails(bval: seq<byte>)
    ensures PayloadPutAsWritten(bval) == Err(IndexOutOfBounds)
  {
  }
}
