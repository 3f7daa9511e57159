/**
 * The map object itself: the directory `positions`, the decode cache `cache`,
 * the buffer `blob` with its `header` and `content` views, and the count of
 * updates since the last compaction. `set` and `without` build a new object
 * over the same buffer; `get` fills the cache in place; `compact` writes a
 * fresh buffer and installs it.
 */
module Store {
  import opened Wrappers
  import opened Buffers
  import opened Descriptors
  import opened Layout
  import opened Snapshots
  import opened Compaction

  /** A ByteBuffer slice: the window `[start, start + length)` of the backing array. */
  datatype Slice = Slice(start: nat, length: nat)

  /** ByteBuffer.put(index, src) on the backing array. */
  method Write(a: array<byte>, at: nat, bs: seq<byte>)
    requires at + |bs| <= a.Length
    modifies a
    ensures a[..] == Splice(old(a[..]), at, bs)
  {
    forall j | 0 <= j < |bs| {
      a[at + j] := bs[j];
    }
    assert a[..] == Splice(old(a[..]), at, bs) by {
      var y := Splice(old(a[..]), at, bs);
      forall j | 0 <= j < a.Length ensures a[j] == y[j] {
        if j < at + |bs| {
          assert y[j] == (old(a[..])[..at] + bs)[j];
        }
      }
    }
  }

  /** ByteBuffer.get(index, dst, 0, length) into a fresh `new byte[length]`. */
  method GetBytes(src: array<byte>, from: nat, length: nat) returns (dst: array<byte>)
    requires from + length <= src.Length
    ensures fresh(dst) && dst[..] == src[from..from + length]
  {
    dst := new byte[length];
    forall j | 0 <= j < length {
      dst[j] := src[from + j];
    }
  }

  /**
   * Writing header record i (at byte 4 + 24i) extends the written header by it
   * and leaves the header size and the content region as they were.
   */
  lemma WroteHeader(x: seq<byte>, i: nat, e: seq<byte>, headerSize: nat, p: nat)
    requires |e| == RECORD_SIZE && RECORD_SIZE * (i + 1) <= headerSize && 4 + headerSize + p <= |x|
    ensures var y := Splice(x, 4 + RECORD_SIZE * i, e);
      && y[..4] == x[..4]
      && y[4..4 + RECORD_SIZE * (i + 1)] == x[4..4 + RECORD_SIZE * i] + e
      && y[4 + headerSize..4 + headerSize + p] == x[4 + headerSize..4 + headerSize + p]
  {
    var at := 4 + RECORD_SIZE * i;
    SpliceOutside(x, at, e, 0, 4);
    SpliceAppends(x, at, e, 4);
    SpliceOutside(x, at, e, 4 + headerSize, 4 + headerSize + p);
  }

  /**
   * Writing bytes at content offset p extends the written content by them and
   * leaves the header size and the first h header bytes as they were.
   */
  lemma WroteContent(x: seq<byte>, h: nat, headerSize: nat, p: nat, bs: seq<byte>)
    requires h <= headerSize && 4 + headerSize + p + |bs| <= |x|
    ensures var y := Splice(x, 4 + headerSize + p, bs);
      && y[..4] == x[..4]
      && y[4..4 + h] == x[4..4 + h]
      && y[4 + headerSize..4 + headerSize + p + |bs|] == x[4 + headerSize..4 + headerSize + p] + bs
  {
    var at := 4 + headerSize + p;
    SpliceOutside(x, at, bs, 0, 4);
    SpliceOutside(x, at, bs, 4, 4 + h);
    SpliceAppends(x, at, bs, 4 + headerSize);
  }

  /**
   * `y` is `x` after writing header record i (`entry`) and, at content offset
   * `p`, the bytes `rec`: the header size is kept and both written prefixes grow.
   */
  ghost predicate Appended(x: seq<byte>, y: seq<byte>, i: nat, headerSize: nat, p: nat, entry: seq<byte>, rec: seq<byte>)
  {
    && |y| == |x| && 4 <= |x| && RECORD_SIZE * (i + 1) <= headerSize && 4 + headerSize + p + |rec| <= |x|
    && y[..4] == x[..4]
    && y[4..4 + RECORD_SIZE * (i + 1)] == x[4..4 + RECORD_SIZE * i] + entry
    && y[4 + headerSize..4 + headerSize + p + |rec|] == x[4 + headerSize..4 + headerSize + p] + rec
  }

  /** Writing a header record and then a content record appends both. */
  lemma SplicedEntry(x: seq<byte>, i: nat, headerSize: nat, p: nat, entry: seq<byte>, rec: seq<byte>)
    requires |entry| == RECORD_SIZE && RECORD_SIZE * (i + 1) <= headerSize && 4 + headerSize + p + |rec| <= |x|
    ensures Appended(x, Splice(Splice(x, 4 + RECORD_SIZE * i, entry), 4 + headerSize + p, rec), i, headerSize, p, entry, rec)
  {
    var y := Splice(x, 4 + RECORD_SIZE * i, entry);
    WroteHeader(x, i, entry, headerSize, p);
    WroteContent(y, RECORD_SIZE * (i + 1), headerSize, p, rec);
  }

  /**
   * One step of the second pass for a stored record: `header.put` of its
   * 24-byte header record at 4 + 24i, then `content.put` of its old bytes at
   * content offset `position`.
   */
  method PutEntry(buff: array<byte>, i: nat, headerSize: nat, position: nat, entry: seq<byte>, rec: seq<byte>)
    requires |entry| == RECORD_SIZE && RECORD_SIZE * (i + 1) <= headerSize
    requires 4 + headerSize + position + |rec| <= buff.Length
    modifies buff
    ensures Appended(old(buff[..]), buff[..], i, headerSize, position, entry, rec)
    ensures buff[..] == Splice(Splice(old(buff[..]), 4 + RECORD_SIZE * i, entry), 4 + headerSize + position, rec)
  {
    ghost var x := buff[..];
    Write(buff, 4 + RECORD_SIZE * i, entry);
    ghost var y := buff[..];
    Write(buff, 4 + headerSize + position, rec);
    assert buff[..] == Splice(y, 4 + headerSize + position, rec);
    SplicedEntry(x, i, headerSize, position, entry, rec);
  }

  /** `content.putInt` of a hash, then `content.put` of a payload right after it. */
  method PutRecord(buff: array<byte>, at: nat, hval: int32, bval: seq<byte>)
    requires at + 4 + |bval| <= buff.Length
    modifies buff
    ensures buff[..] == Splice(old(buff[..]), at, IntBytes(hval) + bval)
  {
    SpliceTwice(buff[..], at, IntBytes(hval), bval);
    Write(buff, at, IntBytes(hval));
    Write(buff, at + 4, bval);
  }

  /**
   * One step of the second pass for a pending record: `header.put` of its
   * header record, then its hash and its encoding into the content region.
   */
  method PutPendingEntry(buff: array<byte>, i: nat, headerSize: nat, position: nat, entry: seq<byte>,
                         hval: int32, bval: seq<byte>)
    requires |entry| == RECORD_SIZE && RECORD_SIZE * (i + 1) <= headerSize
    requires 4 + headerSize + position + 4 + |bval| <= buff.Length
    modifies buff
    ensures Appended(old(buff[..]), buff[..], i, headerSize, position, entry, IntBytes(hval) + bval)
    ensures buff[..] == Splice(Splice(old(buff[..]), 4 + RECORD_SIZE * i, entry), 4 + headerSize + position,
                               IntBytes(hval) + bval)
  {
    ghost var x := buff[..];
    Write(buff, 4 + RECORD_SIZE * i, entry);
    ghost var y := buff[..];
    PutRecord(buff, 4 + headerSize + position, hval, bval);
    assert buff[..] == Splice(y, 4 + headerSize + position, IntBytes(hval) + bval);
    SplicedEntry(x, i, headerSize, position, entry, IntBytes(hval) + bval);
  }

  /**
   * `bytes` starts with the header size, holds `header` at the start of the
   * header region and `content` at the start of the content region.
   */
  ghost predicate Laid(bytes: seq<byte>, headerSize: nat, header: seq<byte>, content: seq<byte>)
  {
    && headerSize < TWO_31 && |header| <= headerSize && 4 + headerSize + |content| <= |bytes|
    && bytes[..4] == IntBytes(headerSize)
    && bytes[4..4 + |header|] == header
    && bytes[4 + headerSize..4 + headerSize + |content|] == content
  }

  /** Appending a header record and a content record to a laid-out buffer extends both parts. */
  lemma AppendedLaid(x: seq<byte>, y: seq<byte>, i: nat, headerSize: nat, p: nat, entry: seq<byte>, rec: seq<byte>,
                     header: seq<byte>, content: seq<byte>)
    requires Appended(x, y, i, headerSize, p, entry, rec)
    requires Laid(x, headerSize, header, content) && |header| == RECORD_SIZE * i && |content| == p
    ensures Laid(y, headerSize, header + entry, content + rec)
  {
  }

  /**
   * The second pass after i keys of `order`: the header size, the first i
   * header records and the first i content records are in place.
   */
  ghost predicate Filled<V>(s: Snapshot<V>, order: seq<UUID>, codec: Codec<V>, i: nat, bytes: seq<byte>)
    requires Compactable(s, order, codec) && i <= |order|
  {
    TotalPrefix(s, order, codec, i);
    RelocatedKeys(s, order, codec);
    && |bytes| == 4 + RECORD_SIZE * |order| + Total(s, order, codec)
    && Laid(bytes, RECORD_SIZE * |order|, HeaderOf(order[..i], Relocated(s, order, codec)), ContentOf(s, order[..i], codec))
  }

  /** A buffer of the right length holding the header size is filled for no keys. */
  lemma FilledStart<V>(s: Snapshot<V>, order: seq<UUID>, codec: Codec<V>, bytes: seq<byte>)
    requires Compactable(s, order, codec)
    requires |bytes| == 4 + RECORD_SIZE * |order| + Total(s, order, codec)
    requires bytes[..4] == IntBytes(RECORD_SIZE * |order|)
    ensures Filled(s, order, codec, 0, bytes)
  {
    assert order[..0] == [];
  }

  /** Writing key i's header record and content record at the running offset keeps the second pass on track. */
  lemma FilledStep<V>(s: Snapshot<V>, order: seq<UUID>, codec: Codec<V>, i: nat, x: seq<byte>, y: seq<byte>)
    requires Compactable(s, order, codec) && i < |order| && Filled(s, order, codec, i, x)
    requires Writable(s, order[..i]) && order[i] in Relocated(s, order, codec) && order[i] in s.dir && EntrySound(s, order[i])
    requires Appended(x, y, i, RECORD_SIZE * |order|, Total(s, order[..i], codec),
                      EntryBytes(order[i], Relocated(s, order, codec)[order[i]]), Record(s, order[i], codec))
    ensures Filled(s, order, codec, i + 1, y)
  {
    RelocatedKeys(s, order, codec);
    var r := Relocated(s, order, codec);
    AppendedLaid(x, y, i, RECORD_SIZE * |order|, Total(s, order[..i], codec), EntryBytes(order[i], r[order[i]]), Record(s, order[i], codec),
                 HeaderOf(order[..i], r), ContentOf(s, order[..i], codec));
    TotalPrefix(s, order, codec, i + 1);
    HeaderOfStep(order, r, i);
    ContentOfStep(s, order, codec, i);
  }

  /** A sequence cut into three consecutive parts is their concatenation. */
  lemma Concat3(bytes: seq<byte>, a: seq<byte>, b: seq<byte>, c: seq<byte>)
    requires |bytes| == |a| + |b| + |c|
    requires bytes[..|a|] == a && bytes[|a|..|a| + |b|] == b && bytes[|a| + |b|..|a| + |b| + |c|] == c
    ensures bytes == a + b + c
  {
    forall k | 0 <= k < |bytes|
      ensures bytes[k] == (a + b + c)[k]
    {
      if k < |a| {
        assert bytes[k] == bytes[..|a|][k];
      } else if k < |a| + |b| {
        assert bytes[k] == bytes[|a|..|a| + |b|][k - |a|];
      } else {
        assert bytes[k] == bytes[|a| + |b|..|a| + |b| + |c|][k - |a| - |b|];
      }
    }
  }

  /** At the end of the second pass the buffer is the compacted buffer. */
  lemma FilledComplete<V>(s: Snapshot<V>, order: seq<UUID>, codec: Codec<V>, bytes: seq<byte>)
    requires Compactable(s, order, codec) && Filled(s, order, codec, |order|, bytes)
    ensures bytes == CompactedBlob(s, order, codec)
  {
    var r := Relocated(s, order, codec);
    RelocatedKeys(s, order, codec);
    TotalPrefix(s, order, codec, |order|);
    assert order[..|order|] == order;
    LaidWhole(bytes, RECORD_SIZE * |order|, HeaderOf(order[..|order|], r), ContentOf(s, order[..|order|], codec));
  }

  /** A buffer laid out with a full header and all of its content is exactly those three parts. */
  lemma LaidWhole(bytes: seq<byte>, headerSize: nat, header: seq<byte>, content: seq<byte>)
    requires Laid(bytes, headerSize, header, content)
    requires |header| == headerSize && |bytes| == 4 + headerSize + |content|
    ensures bytes == IntBytes(headerSize) + header + content
  {
    Concat3(bytes, IntBytes(headerSize), header, content);
  }

  /** Overriding one key of the right operand of a map union. */
  lemma UnionUpdate<K, W>(a: map<K, W>, b: map<K, W>, k: K, v: W)
    ensures (a + b)[k := v] == a + b[k := v]
  {
  }

  /**
   * The state of the second pass after i keys of `order`: the running offset,
   * the directory with the first i keys relocated, and the buffer so far.
   */
  ghost predicate FillInv<V>(s: Snapshot<V>, order: seq<UUID>, codec: Codec<V>, i: nat, position: int,
                             dir: map<UUID, int64>, bytes: seq<byte>)
    requires Compactable(s, order, codec)
  {
    && i <= |order| && Writable(s, order[..i])
    && position == Total(s, order[..i], codec) <= Total(s, order, codec)
    && dir == s.dir + Relocated(s, order[..i], codec)
    && Filled(s, order, codec, i, bytes)
  }

  /** A buffer of the right length holding the header size starts the second pass. */
  lemma FillStart<V>(s: Snapshot<V>, order: seq<UUID>, codec: Codec<V>, bytes: seq<byte>)
    requires Compactable(s, order, codec)
    requires |bytes| == 4 + RECORD_SIZE * |order| + Total(s, order, codec)
    requires bytes[..4] == IntBytes(RECORD_SIZE * |order|)
    ensures FillInv(s, order, codec, 0, 0, s.dir, bytes)
  {
    assert order[..0] == [];
    assert s.dir + map[] == s.dir;
  }

  /** Writing key i's header record and content record at the running offset keeps the second pass on track. */
  lemma FillStep<V>(s: Snapshot<V>, order: seq<UUID>, codec: Codec<V>, i: nat, position: int,
                    dir: map<UUID, int64>, x: seq<byte>, y: seq<byte>, met: int64)
    requires Compactable(s, order, codec) && i < |order| && FillInv(s, order, codec, i, position, dir, x)
    requires order[i] in s.dir && EntrySound(s, order[i]) && RecordSize(s, order[i], codec) < TWO_31
    requires 0 <= position < TWO_63 && met == NewDescriptor(s, order[i], position, codec)
    requires Appended(x, y, i, RECORD_SIZE * |order|, position, EntryBytes(order[i], met), Record(s, order[i], codec))
    ensures FillInv(s, order, codec, i + 1, position + RecordSize(s, order[i], codec), dir[order[i] := met], y)
  {
    RelocatedAt(s, order, codec, i);
    RelocatedStep(s, order, codec, i);
    TotalPrefix(s, order, codec, i + 1);
    UnionUpdate(s.dir, Relocated(s, order[..i], codec), order[i], met);
    FilledStep(s, order, codec, i, x, y);
  }

  /** At the end of the second pass the directory is the relocated one and the buffer is the compacted one. */
  lemma FillComplete<V>(s: Snapshot<V>, order: seq<UUID>, codec: Codec<V>, position: int, dir: map<UUID, int64>, bytes: seq<byte>)
    requires Compactable(s, order, codec) && FillInv(s, order, codec, |order|, position, dir, bytes)
    ensures dir == Relocated(s, order, codec)
    ensures bytes == CompactedBlob(s, order, codec)
  {
    FilledComplete(s, order, codec, bytes);
    RelocatedKeys(s, order, codec);
    assert order[..|order|] == order;
  }

  /** What the first pass of compact hands the second: each pending key of `order` with its encoding and hash. */
  ghost predicate Encoded<V>(positions: map<UUID, int64>, cache: map<UUID, Option<V>>, order: seq<UUID>, codec: Codec<V>,
                             newItems: map<UUID, seq<byte>>, newHashes: map<UUID, int32>, n: nat)
    requires n <= |order|
  {
    forall j :: 0 <= j < n && order[j] in positions && positions[order[j]] == PENDING ==>
      && order[j] in newItems && order[j] in newHashes && order[j] in cache && cache[order[j]].Some?
      && newItems[order[j]] == codec.encode(cache[order[j]].value)
      && newHashes[order[j]] == codec.hasheq(cache[order[j]].value)
  }

  /** The state of the first pass after i keys of `order`: the running total and the encoded pending values. */
  ghost predicate Measured<V>(s: Snapshot<V>, order: seq<UUID>, codec: Codec<V>, i: nat, contentSize: int,
                              newItems: map<UUID, seq<byte>>, newHashes: map<UUID, int32>)
    requires Compactable(s, order, codec)
  {
    && i <= |order| && Writable(s, order[..i])
    && contentSize == Total(s, order[..i], codec) <= Total(s, order, codec)
    && Encoded(s.dir, s.cache, order, codec, newItems, newHashes, i)
  }

  /** Adding key i's record size, and its encoding and hash when it is pending, keeps the first pass on track. */
  lemma MeasuredStep<V>(s: Snapshot<V>, order: seq<UUID>, codec: Codec<V>, i: nat, contentSize: int,
                        newItems: map<UUID, seq<byte>>, newHashes: map<UUID, int32>,
                        newItems': map<UUID, seq<byte>>, newHashes': map<UUID, int32>)
    requires Compactable(s, order, codec) && i < |order| && Measured(s, order, codec, i, contentSize, newItems, newHashes)
    requires s.dir[order[i]] != PENDING ==> newItems' == newItems && newHashes' == newHashes
    requires s.dir[order[i]] == PENDING ==>
      && order[i] in s.cache && s.cache[order[i]].Some?
      && newItems' == newItems[order[i] := codec.encode(s.cache[order[i]].value)]
      && newHashes' == newHashes[order[i] := codec.hasheq(s.cache[order[i]].value)]
    ensures Measured(s, order, codec, i + 1, contentSize + RecordSize(s, order[i], codec), newItems', newHashes')
  {
    TotalStep(s, order, codec, i);
    TotalPrefix(s, order, codec, i + 1);
  }

  /**
   * compact, first pass over `positions` in `order`: count the entries, add up
   * the record sizes and encode each pending value, keeping its bytes and hash.
   */
  method Measure<V>(positions: map<UUID, int64>, cache: map<UUID, Option<V>>, ghost src: seq<byte>,
                    order: seq<UUID>, codec: Codec<V>)
    returns (contentSize: int32, contentElements: int32, newItems: map<UUID, seq<byte>>, newHashes: map<UUID, int32>)
    requires Compactable(Snapshot(positions, cache, src), order, codec)
    ensures contentElements == |order| && contentSize == Total(Snapshot(positions, cache, src), order, codec)
    ensures Encoded(positions, cache, order, codec, newItems, newHashes, |order|)
  {
    ghost var s := Snapshot(positions, cache, src);
    contentSize, contentElements := 0, 0;
    newItems, newHashes := map[], map[];
    assert order[..0] == [];
    var i := 0;
    while i < |order|
      invariant contentElements == i
      invariant Measured(s, order, codec, i, contentSize, newItems, newHashes)
    {
      var key := order[i];
      var met := positions[key];
      assert EntrySound(s, key);
      ghost var items, hashes := newItems, newHashes;
      var size: int32;
      if met != PENDING {
        MeasuredStep(s, order, codec, i, contentSize, items, hashes, newItems, newHashes);
        size := SizeOf(met);
      } else {
        var oval := cache[key].value;
        var bval := codec.encode(oval);
        newItems := newItems[key := bval];
        newHashes := newHashes[key := codec.hasheq(oval)];
        MeasuredStep(s, order, codec, i, contentSize, items, hashes, newItems, newHashes);
        size := |bval| + 4;
      }
      contentSize := contentSize + size;
      contentElements := contentElements + 1;
      i := i + 1;
    }
    assert order[..i] == order;
  }

  /** Before key i of the second pass: the key is sound and its record fits in the buffer. */
  lemma FillReady<V>(s: Snapshot<V>, order: seq<UUID>, codec: Codec<V>, i: nat, position: int,
                     dir: map<UUID, int64>, bytes: seq<byte>)
    requires Compactable(s, order, codec) && i < |order| && FillInv(s, order, codec, i, position, dir, bytes)
    ensures order[i] in s.dir && EntrySound(s, order[i])
    ensures position + RecordSize(s, order[i], codec) <= Total(s, order, codec)
    ensures |bytes| == 4 + RECORD_SIZE * |order| + Total(s, order, codec)
  {
    assert EntrySound(s, order[i]);
    RelocatedAt(s, order, codec, i);
  }

  /**
   * The body of the second pass of compact for key i: write its header record
   * and its content record at `position`, rebasing a stored descriptor and
   * packing a pending one, and return the new descriptor and the record size.
   */
  method FillOne<V>(buff: array<byte>, positions: map<UUID, int64>, cache: map<UUID, Option<V>>, src: seq<byte>,
                    order: seq<UUID>, codec: Codec<V>,
                    newItems: map<UUID, seq<byte>>, newHashes: map<UUID, int32>, headerSize: int32,
                    i: nat, position: int64, ghost s: Snapshot<V>)
    returns (met: int64, size: int32)
    requires s == Snapshot(positions, cache, src) && i < |order| && order[i] in positions && EntrySound(s, order[i])
    requires Encoded(positions, cache, order, codec, newItems, newHashes, |order|)
    requires RECORD_SIZE * (i + 1) <= headerSize && 0 <= position
    requires 4 + headerSize + position + RecordSize(s, order[i], codec) <= buff.Length < TWO_31
    modifies buff
    ensures size == RecordSize(s, order[i], codec) && met == NewDescriptor(s, order[i], position, codec)
    ensures Appended(old(buff[..]), buff[..], i, headerSize, position, EntryBytes(order[i], met), Record(s, order[i], codec))
  {
    var key := order[i];
    met := positions[key];
    if met != PENDING {
      size := SizeOf(met);
      var prevPos := OffsetOf(met);
      met := Rebase(met, position);
      var rec := src[prevPos..prevPos as int + size as int];
      assert rec == Record(s, key, codec);
      PutEntry(buff, i, headerSize, position, EntryBytes(key, met), rec);
    } else {
      var bval := newItems[key];
      var hval := newHashes[key];
      assert bval == codec.encode(cache[key].value) && hval == codec.hasheq(cache[key].value);
      size := |bval| + 4;
      met := Pack(size, position);
      assert IntBytes(hval) + bval == Record(s, key, codec);
      PutPendingEntry(buff, i, headerSize, position, EntryBytes(key, met), hval, bval);
    }
  }

  /**
   * compact, second pass over `positions` in `order`: write each key's header
   * record and content record into `buff` at the running offset, and return
   * the relocated directory. `src` is the bytes of the old content view.
   */
  method Fill<V>(buff: array<byte>, positions: map<UUID, int64>, cache: map<UUID, Option<V>>, src: seq<byte>,
                 order: seq<UUID>, codec: Codec<V>,
                 newItems: map<UUID, seq<byte>>, newHashes: map<UUID, int32>, headerSize: int32)
    returns (dir: map<UUID, int64>)
    requires Compactable(Snapshot(positions, cache, src), order, codec)
    requires headerSize == RECORD_SIZE * |order|
    requires buff.Length == 4 + headerSize + Total(Snapshot(positions, cache, src), order, codec)
    requires buff[..4] == IntBytes(headerSize)
    requires Encoded(positions, cache, order, codec, newItems, newHashes, |order|)
    modifies buff
    ensures dir == Relocated(Snapshot(positions, cache, src), order, codec)
    ensures buff[..] == CompactedBlob(Snapshot(positions, cache, src), order, codec)
  {
    ghost var s := Snapshot(positions, cache, src);
    FillStart(s, order, codec, buff[..]);
    dir := positions;
    var position: int64 := 0;
    var i := 0;
    while i < |order|
      invariant FillInv(s, order, codec, i, position, dir, buff[..])
    {
      FillReady(s, order, codec, i, position, dir, buff[..]);
      ghost var x := buff[..];
      var met, size := FillOne(buff, positions, cache, src, order, codec, newItems, newHashes, headerSize, i, position, s);
      FillStep(s, order, codec, i, position, dir, x, buff[..], met);
      dir := dir[order[i] := met];
      position := position + size;
      i := i + 1;
    }
    FillComplete(s, order, codec, position, dir, buff[..]);
  }

  /** The compacted buffer starts with the header size and ends with the new content region. */
  lemma CompactedParts<V>(s: Snapshot<V>, order: seq<UUID>, codec: Codec<V>)
    requires Compactable(s, order, codec)
    ensures var bs, hs := CompactedBlob(s, order, codec), RECORD_SIZE * |order|;
      && bs[..4] == IntBytes(hs) && ReadInt(bs[..4]) == hs
      && bs[4 + hs..] == ContentOf(s, order, codec)
  {
    RelocatedKeys(s, order, codec);
    var hs := RECORD_SIZE * |order|;
    var h := HeaderOf(order, Relocated(s, order, codec));
    var c := ContentOf(s, order, codec);
    assert CompactedBlob(s, order, codec) == IntBytes(hs) + h + c;
    assert (IntBytes(hs) + h + c)[..4] == IntBytes(hs);
    assert (IntBytes(hs) + h + c)[4 + hs..] == c;
    ReadIntBytes(hs);
  }

  /**
   * compact without the installation: both passes over a fresh buffer of
   * 4 + 24n + contentSize bytes.
   */
  method Rebuild<V>(positions: map<UUID, int64>, cache: map<UUID, Option<V>>, src: seq<byte>,
                    order: seq<UUID>, codec: Codec<V>)
    returns (buff: array<byte>, dir: map<UUID, int64>, headerSize: int32, contentSize: int32)
    requires Compactable(Snapshot(positions, cache, src), order, codec)
    ensures fresh(buff)
    ensures headerSize == RECORD_SIZE * |order| && contentSize == Total(Snapshot(positions, cache, src), order, codec)
    ensures dir == Relocated(Snapshot(positions, cache, src), order, codec)
    ensures buff[..] == CompactedBlob(Snapshot(positions, cache, src), order, codec)
  {
    var contentElements, newItems, newHashes;
    contentSize, contentElements, newItems, newHashes := Measure(positions, cache, src, order, codec);
    headerSize := contentElements * RECORD_SIZE as int32;
    buff := new byte[headerSize + contentSize + 4];
    Write(buff, 0, IntBytes(headerSize));
    assert buff[..4] == IntBytes(headerSize);
    dir := Fill(buff, positions, cache, src, order, codec, newItems, newHashes, headerSize);
  }

  class ConstantMap<V> {
    var positions: map<UUID, int64>
    var cache: map<UUID, Option<V>>
    var blob: array<byte>
    var header: Slice
    var content: Slice
    var pending: int32

    /**
     * The buffer is `[headerSize:4][header][content]`: the header view starts
     * at byte 4 and is as long as the stored header size, and the content view
     * runs from the end of the header to the end of the buffer.
     */
    ghost predicate Valid()
      reads this, blob
    {
      && 4 <= blob.Length < TWO_31
      && 0 <= ReadInt(blob[..4]) <= blob.Length - 4
      && header == Slice(4, ReadInt(blob[..4]))
      && content == Slice(4 + header.length, blob.Length - 4 - header.length)
    }

    /** The logical state: directory, cache and the bytes of the content view. */
    ghost function View(): (s: Snapshot<V>)
      reads this, blob
      requires Valid()
      ensures Sized(s)
    {
      Snapshot(positions, cache, blob[content.start..content.start + content.length])
    }

    constructor (positions: map<UUID, int64>, cache: map<UUID, Option<V>>, blob: array<byte>,
                 header: Slice, content: Slice, pending: int32)
      ensures this.positions == positions && this.cache == cache && this.blob == blob
      ensures this.header == header && this.content == content && this.pending == pending
    {
      this.positions := positions;
      this.cache := cache;
      this.blob := blob;
      this.header := header;
      this.content := content;
      this.pending := pending;
    }

    /**
     * createFromBlob: read the header size, then each 24-byte header record as
     * (msb, lsb, descriptor), a later record for a key replacing an earlier one.
     */
    static method CreateFromBlob(bytes: array<byte>) returns (r: Result<ConstantMap<V>, Fault>)
      requires bytes.Length < TWO_31
      ensures r.Ok? <==> FromBlob<V>(bytes[..]).Ok?
      ensures r.Err? ==> r.error == IndexOutOfBounds
      ensures r.Ok? ==> fresh(r.value) && r.value.Valid() && r.value.blob == bytes && r.value.pending == 0
      ensures r.Ok? ==> r.value.View() == FromBlob<V>(bytes[..]).value
      ensures r.Ok? ==> r.value.Count() <= ReadInt(bytes[..4]) / RECORD_SIZE
    {
      if bytes.Length < 4 {
        return Err(IndexOutOfBounds);
      }
      var headerSize := ReadInt(bytes[..4]);
      if !InRange(4, headerSize, bytes.Length) {
        return Err(IndexOutOfBounds);
      }
      var header := Slice(4, headerSize);
      var content := Slice(headerSize + 4, bytes.Length - (headerSize + 4));
      var nitems := headerSize / RECORD_SIZE;
      var h := bytes[4..4 + headerSize];
      var positions := ParseRecords(h, nitems);
      ParseDirectoryCount(h, nitems);
      var m := new ConstantMap(positions, map[], bytes, header, content, 0);
      assert bytes[..][4 + headerSize..] == bytes[content.start..content.start + content.length];
      return Ok(m);
    }

    /** The record loop of createFromBlob: `nitems` header records, a later one for a key replacing an earlier one. */
    static method ParseRecords(h: seq<byte>, nitems: nat) returns (positions: map<UUID, int64>)
      requires RECORD_SIZE * nitems <= |h|
      ensures positions == ParseDirectory(h, nitems)
    {
      positions := map[];
      var i := 0;
      while i < nitems
        invariant 0 <= i <= nitems
        invariant positions == ParseDirectory(h, i)
      {
        var key, met := ReadRecord(h, i);
        positions := positions[key := met];
        i := i + 1;
      }
    }

    /** One header record: `new UUID(getLong(), getLong())`, then the descriptor's getLong. */
    static method ReadRecord(h: seq<byte>, i: nat) returns (key: UUID, met: int64)
      requires RECORD_SIZE * (i + 1) <= |h|
      ensures key == EntryKey(h, i) && met == EntryDescriptor(h, i)
    {
      var at := RECORD_SIZE * i;
      var msb := ReadLong(h[at..at + 8]);
      var lsb := ReadLong(h[at + 8..at + 16]);
      met := ReadLong(h[at + 16..at + 24]);
      key := UUID(msb, lsb);
    }

    /** createEmpty: a four-byte buffer holding header size 0, so no records. */
    static method CreateEmpty() returns (m: ConstantMap<V>)
      ensures fresh(m) && m.Valid() && m.pending == 0
      ensures m.positions == map[] && m.cache == map[] && m.Count() == 0
      ensures m.View().content == []
      ensures fresh(m.blob) && m.blob[..] == IntBytes(0)
    {
      var a := new byte[4](_ => 0);
      Write(a, 0, IntBytes(0));
      assert a[..4] == IntBytes(0);
      ReadIntBytes(0);
      var r := CreateFromBlob(a);
      m := r.value;
    }

    /** `set`: a new map over the same buffer, with `key` pending on `val`. */
    method Set(key: UUID, val: V) returns (m: ConstantMap<V>)
      ensures fresh(m)
      ensures m.positions == positions[key := PENDING] && m.cache == cache[key := Some(val)]
      ensures m.blob == blob && m.header == header && m.content == content
      ensures m.pending == Wrap32(pending as int + 1)
      ensures Valid() ==> m.Valid() && m.View() == Assoc(View(), key, val)
    {
      m := new ConstantMap(positions[key := PENDING], cache[key := Some(val)], blob, header, content,
                           Wrap32(pending as int + 1));
    }

    /** `without`: a new map over the same buffer with `key` gone; it counts as an update even if `key` was absent. */
    method Without(key: UUID) returns (m: ConstantMap<V>)
      ensures fresh(m)
      ensures m.positions == positions - {key} && m.cache == cache - {key}
      ensures m.blob == blob && m.header == header && m.content == content
      ensures m.pending == Wrap32(pending as int + 1)
      ensures Valid() ==> m.Valid() && m.View() == Dissoc(View(), key)
    {
      m := new ConstantMap(positions - {key}, cache - {key}, blob, header, content,
                           Wrap32(pending as int + 1));
    }

    /** containsKey: whether the directory holds the key, whatever the cache says. */
    predicate ContainsKey(key: UUID)
      reads this
    {
      key in positions
    }

    /** count: the number of directory entries. */
    function Count(): nat
      reads this
    {
      |positions|
    }

    /**
     * The miss path of get: copy out `content[pos+4, pos+size)` into a fresh
     * `new byte[size-4]` and decode it. A negative length and a range outside
     * the content view are the two ways it fails.
     */
    method Load(key: UUID, decode: seq<byte> -> V) returns (r: Result<Option<V>, Fault>)
      requires Valid() && key !in cache && key in positions
      ensures r == Lookup(View(), key, decode)
    {
      ghost var c := blob[content.start..content.start + content.length];
      assert View() == Snapshot(positions, cache, c);
      var met := positions[key];
      var size := SizeOf(met);
      var pos := OffsetOf(met);
      var len := Wrap32(size as int - 4);
      if len < 0 {
        return Err(NegativeArraySize);
      }
      var from := Wrap32(pos as int + 4);
      if !InRange(from, len, content.length) {
        return Err(IndexOutOfBounds);
      }
      var at := content.start + from;
      SliceOfSlice(blob[..], content.start, content.start + content.length, from, from + len);
      var bbuff := GetBytes(blob, at, len);
      assert bbuff[..] == c[from..from + len];
      return Ok(Some(decode(bbuff[..])));
    }

    /**
     * get: a cache hit returns the cached value; a miss with a descriptor
     * decodes the record and memoises the value; an unknown key memoises and
     * returns `null`. A failed decode memoises nothing.
     */
    method Get(key: UUID, decode: seq<byte> -> V) returns (r: Result<Option<V>, Fault>)
      requires Valid()
      modifies this
      ensures Valid() && r == Lookup(old(View()), key, decode)
      ensures View() == AfterGet(old(View()), key, decode)
      ensures unchanged(old(blob)) && blob == old(blob) && pending == old(pending)
      ensures header == old(header) && content == old(content)
    {
      if key in cache {
        return Ok(cache[key]);
      }
      if key in positions {
        r := Load(key, decode);
        if r.Ok? {
          cache := cache[key := r.value];
        }
        return;
      }
      cache := cache[key := None];
      return Ok(None);
    }

    /** valAt(key, notFound): `notFound` for a key outside the directory, otherwise `get`. */
    method ValAt(key: UUID, notFound: Option<V>, decode: seq<byte> -> V) returns (r: Result<Option<V>, Fault>)
      requires Valid()
      modifies this
      ensures Valid() && unchanged(old(blob)) && blob == old(blob) && pending == old(pending)
      ensures header == old(header) && content == old(content)
      ensures key !in old(positions) ==> r == Ok(notFound) && View() == old(View())
      ensures key in old(positions) ==> r == Lookup(old(View()), key, decode)
      ensures key in old(positions) ==> View() == AfterGet(old(View()), key, decode)
    {
      if key in positions {
        r := Get(key, decode);
      } else {
        r := Ok(notFound);
      }
    }

    /** getHashEq: the hash of the cached value, or the 4-byte hash stored at the key's offset. */
    method GetHashEq(key: UUID, hasheq: V -> int32) returns (r: Result<int32, Fault>)
      requires Valid()
      ensures r == HashEq(View(), key, hasheq)
    {
      ghost var c := blob[content.start..content.start + content.length];
      assert View() == Snapshot(positions, cache, c);
      if key in cache {
        match cache[key]
        case Some(v) => return Ok(hasheq(v));
        case None => return Err(NullPointer);
      }
      if key !in positions {
        return Err(NullPointer);
      }
      var pos := OffsetOf(positions[key]);
      if !InRange(pos, 4, content.length) {
        return Err(IndexOutOfBounds);
      }
      var at := content.start + pos;
      SliceOfSlice(blob[..], content.start, content.start + content.length, pos, pos + 4);
      assert blob[at..at + 4] == c[pos..pos + 4];
      return Ok(ReadInt(blob[at..at + 4]));
    }

    /**
     * compact: nothing to do without pending updates; otherwise write a fresh
     * buffer holding every key of `order` and install it with its header and
     * content views, the relocated directory and no pending updates.
     */
    method Compact(order: seq<UUID>, codec: Codec<V>)
      requires Valid() && Enumerates(order, positions.Keys)
      requires pending != 0 ==> Compactable(View(), order, codec)
      modifies this
      ensures Valid() && cache == old(cache) && pending == 0
      ensures old(pending) == 0 ==> View() == old(View()) && blob == old(blob)
      ensures old(pending) != 0 ==> fresh(blob) && header == Slice(4, RECORD_SIZE * |order|)
      ensures old(pending) != 0 ==> View() == Compacted(old(View()), order, codec)
      ensures old(pending) != 0 ==> blob[..] == CompactedBlob(old(View()), order, codec)
    {
      if pending == 0 {
        return;
      }
      ghost var s := View();
      var src := blob[content.start..content.start + content.length];
      var buff, dir, headerSize, contentSize := Rebuild(positions, cache, src, order, codec);
      CompactedParts(s, order, codec);
      Install(buff, dir, headerSize, contentSize);
    }

    /** The end of compact: the new directory and buffer, its two views, and no pending updates. */
    method Install(buff: array<byte>, dir: map<UUID, int64>, headerSize: int32, contentSize: int32)
      requires 0 <= headerSize && 0 <= contentSize && buff.Length == 4 + headerSize + contentSize < TWO_31
      requires ReadInt(buff[..][..4]) == headerSize
      modifies this
      ensures Valid() && positions == dir && cache == old(cache) && blob == buff && pending == 0
      ensures header == Slice(4, headerSize) && View() == Snapshot(dir, cache, buff[..][4 + headerSize..])
    {
      assert buff[..4] == buff[..][..4];
      positions := dir;
      pending := 0;
      blob := buff;
      header := Slice(4, headerSize);
      content := Slice(headerSize + 4, contentSize);
    }

    /** toBlob: compact, then hand out the backing array. */
    method ToBlob(order: seq<UUID>, codec: Codec<V>) returns (a: array<byte>)
      requires Valid() && Enumerates(order, positions.Keys)
      requires pending != 0 ==> Compactable(View(), order, codec)
      modifies this
      ensures Valid() && a == blob && cache == old(cache) && pending == 0
      ensures old(pending) == 0 ==> a == old(blob) && View() == old(View())
      ensures old(pending) != 0 ==> fresh(a) && View() == Compacted(old(View()), order, codec)
      ensures old(pending) != 0 ==> a[..] == CompactedBlob(old(View()), order, codec)
    {
      Compact(order, codec);
      a := blob;
    }
  }
}
