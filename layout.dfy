/**
 * The serialized buffer: `[headerSize:4][header][content]`, where the header is
 * a run of 24-byte records `[msb:8][lsb:8][descriptor:8]`, all big-endian.
 */
module Layout {
  import opened Wrappers
  import opened Buffers

  /** java.util.UUID: two 64-bit words. */
  datatype UUID = UUID(msb: int64, lsb: int64)

  /** RECORD_SIZE = 16 + 8. */
  const RECORD_SIZE: nat := 24

  /** The three putLong calls that write one header record. */
  function EntryBytes(key: UUID, d: int64): (bs: seq<byte>)
    ensures |bs| == RECORD_SIZE
  {
    LongBytes(key.msb) + LongBytes(key.lsb) + LongBytes(d)
  }

  /** The key of the i-th header record: `new UUID(getLong(), getLong())`. */
  function EntryKey(header: seq<byte>, i: nat): UUID
    requires RECORD_SIZE * (i + 1) <= |header|
  {
    var at := RECORD_SIZE * i;
    UUID(ReadLong(header[at..at + 8]), ReadLong(header[at + 8..at + 16]))
  }

  /** The descriptor of the i-th header record: the third getLong. */
  function EntryDescriptor(header: seq<byte>, i: nat): int64
    requires RECORD_SIZE * (i + 1) <= |header|
  {
    var at := RECORD_SIZE * i;
    ReadLong(header[at + 16..at + 24])
  }

  /** The directory built from the first n header records; a later record for the same key wins. */
  function ParseDirectory(header: seq<byte>, n: nat): map<UUID, int64>
    requires RECORD_SIZE * n <= |header|
  {
    if n == 0 then map[]
    else ParseDirectory(header, n - 1)[EntryKey(header, n - 1) := EntryDescriptor(header, n - 1)]
  }

  /** The keys of the parsed directory are exactly the keys of its records. */
  lemma {:induction false} ParseDirectoryKeys(header: seq<byte>, n: nat)
    requires RECORD_SIZE * n <= |header|
    ensures ParseDirectory(header, n).Keys == set i | 0 <= i < n :: EntryKey(header, i)
  {
    if n > 0 {
      ParseDirectoryKeys(header, n - 1);
      var before := set i | 0 <= i < n - 1 :: EntryKey(header, i);
      assert (set i | 0 <= i < n :: EntryKey(header, i)) == before + {EntryKey(header, n - 1)};
    }
  }

  /** A key holds the descriptor of the last record that carries it. */
  lemma {:induction false} ParseDirectoryLast(header: seq<byte>, n: nat, i: nat)
    requires RECORD_SIZE * n <= |header|
    requires i < n
    requires forall j :: i < j < n ==> EntryKey(header, j) != EntryKey(header, i)
    ensures EntryKey(header, i) in ParseDirectory(header, n)
    ensures ParseDirectory(header, n)[EntryKey(header, i)] == EntryDescriptor(header, i)
  {
    if i < n - 1 {
      ParseDirectoryLast(header, n - 1, i);
    }
  }

  /** The directory never has more entries than there are records. */
  lemma {:induction false} ParseDirectoryCount(header: seq<byte>, n: nat)
    requires RECORD_SIZE * n <= |header|
    ensures |ParseDirectory(header, n)| <= n
  {
    if n > 0 {
      ParseDirectoryCount(header, n - 1);
    }
  }

  /** Records with distinct keys give a directory with exactly one entry per record. */
  lemma {:induction false} ParseDirectoryCountDistinct(header: seq<byte>, n: nat)
    requires RECORD_SIZE * n <= |header|
    requires forall i, j :: 0 <= i < j < n ==> EntryKey(header, i) != EntryKey(header, j)
    ensures |ParseDirectory(header, n)| == n
  {
    if n > 0 {
      ParseDirectoryCountDistinct(header, n - 1);
      ParseDirectoryAbsent(header, n - 1, EntryKey(header, n - 1));
    }
  }

  /** A key that no record carries is not in the directory. */
  lemma {:induction false} ParseDirectoryAbsent(header: seq<byte>, n: nat, key: UUID)
    requires RECORD_SIZE * n <= |header|
    requires forall i :: 0 <= i < n ==> EntryKey(header, i) != key
    ensures key !in ParseDirectory(header, n)
  {
    if n > 0 {
      ParseDirectoryAbsent(header, n - 1, key);
    }
  }

  /** The header records of `order`, each written with its descriptor in `dir`. */
  function HeaderOf(order: seq<UUID>, dir: map<UUID, int64>): (bs: seq<byte>)
    requires forall k :: k in order ==> k in dir
    ensures |bs| == RECORD_SIZE * |order|
  {
    if order == [] then []
    else HeaderOf(order[..|order| - 1], dir) + EntryBytes(order[|order| - 1], dir[order[|order| - 1]])
  }

  /** Writing one more key extends the header by that key's record. */
  lemma HeaderOfStep(order: seq<UUID>, dir: map<UUID, int64>, i: nat)
    requires forall k :: k in order ==> k in dir
    requires i < |order|
    ensures HeaderOf(order[..i + 1], dir) == HeaderOf(order[..i], dir) + EntryBytes(order[i], dir[order[i]])
  {
    assert order[..i + 1][..i] == order[..i];
  }

  /** Record i of a written header is the record of order[i]. */
  lemma {:induction false} HeaderOfEntry(order: seq<UUID>, dir: map<UUID, int64>, i: nat)
    requires forall k :: k in order ==> k in dir
    requires i < |order|
    ensures HeaderOf(order, dir)[RECORD_SIZE * i..RECORD_SIZE * (i + 1)] == EntryBytes(order[i], dir[order[i]])
  {
    var init := order[..|order| - 1];
    var h := HeaderOf(order, dir);
    assert h == HeaderOf(init, dir) + EntryBytes(order[|order| - 1], dir[order[|order| - 1]]);
    if i < |order| - 1 {
      HeaderOfEntry(init, dir, i);
      assert h[RECORD_SIZE * i..RECORD_SIZE * (i + 1)] == HeaderOf(init, dir)[RECORD_SIZE * i..RECORD_SIZE * (i + 1)];
    }
  }

  /** Parsing one written record gives back its key and descriptor. */
  lemma EntryRoundTrip(header: seq<byte>, i: nat, key: UUID, d: int64)
    requires RECORD_SIZE * (i + 1) <= |header|
    requires header[RECORD_SIZE * i..RECORD_SIZE * (i + 1)] == EntryBytes(key, d)
    ensures EntryKey(header, i) == key && EntryDescriptor(header, i) == d
  {
    var at := RECORD_SIZE * i;
    var a, b, c := LongBytes(key.msb), LongBytes(key.lsb), LongBytes(d);
    var r := header[at..at + 24];
    assert r == a + b + c;
    assert header[at..at + 8] == r[..8] == a;
    assert r[8..16] == b by {
      assert r == (a + b) + c;
      assert (a + b)[8..] == b;
    }
    SliceOfSlice(header, at, at + 24, 8, 16);
    assert header[at + 16..at + 24] == r[16..] == c;
    ReadLongBytes(key.msb);
    ReadLongBytes(key.lsb);
    ReadLongBytes(d);
  }

  /** Record i of a written header parses as order[i] with its descriptor. */
  lemma HeaderOfParses(order: seq<UUID>, dir: map<UUID, int64>, i: nat)
    requires forall k :: k in order ==> k in dir
    requires i < |order|
    ensures EntryKey(HeaderOf(order, dir), i) == order[i]
    ensures EntryDescriptor(HeaderOf(order, dir), i) == dir[order[i]]
  {
    HeaderOfEntry(order, dir, i);
    EntryRoundTrip(HeaderOf(order, dir), i, order[i], dir[order[i]]);
  }

  /** Parsing a written header recovers the descriptors of every key written into it. */
  lemma {:induction false} ParseHeaderOf(order: seq<UUID>, dir: map<UUID, int64>, n: nat)
    requires forall k :: k in order ==> k in dir
    requires n <= |order|
    ensures ParseDirectory(HeaderOf(order, dir), n) == map k | k in order[..n] :: dir[k]
  {
    var h := HeaderOf(order, dir);
    if n > 0 {
      ParseHeaderOf(order, dir, n - 1);
      HeaderOfParses(order, dir, n - 1);
      ParseStep(h, order, dir, n);
    } else {
      assert order[..0] == [];
    }
  }

  /** One more record of `order[n - 1]` with its descriptor extends the parsed prefix map by that key. */
  lemma ParseStep(h: seq<byte>, order: seq<UUID>, dir: map<UUID, int64>, n: nat)
    requires forall k :: k in order ==> k in dir
    requires 0 < n <= |order| && RECORD_SIZE * n <= |h|
    requires ParseDirectory(h, n - 1) == map k | k in order[..n - 1] :: dir[k]
    requires EntryKey(h, n - 1) == order[n - 1] && EntryDescriptor(h, n - 1) == dir[order[n - 1]]
    ensures ParseDirectory(h, n) == map k | k in order[..n] :: dir[k]
  {
    assert order[..n] == order[..n - 1] + [order[n - 1]];
  }

  /** What createFromBlob recovers: the declared header size and the directory. */
  datatype Parsed = Parsed(headerSize: int32, dir: map<UUID, int64>)

  /**
   * createFromBlob: headerSize from bytes 0-3, then headerSize / 24 records.
   * getInt(0) fails on fewer than four bytes and slice(4, headerSize) fails
   * unless the header lies inside the buffer.
   */
  function ParseBlob(blob: seq<byte>): (r: Result<Parsed, Fault>)
    ensures r.Ok? <==> 4 <= |blob| && 0 <= ReadInt(blob[..4]) <= |blob| - 4
    ensures r.Ok? ==> r.value.headerSize == ReadInt(blob[..4])
    ensures r.Ok? ==> |r.value.dir| <= r.value.headerSize / RECORD_SIZE
  {
    if |blob| < 4 then Err(IndexOutOfBounds)
    else
      var headerSize := ReadInt(blob[..4]);
      if !InRange(4, headerSize, |blob|) then Err(IndexOutOfBounds)
      else
        var header := blob[4..4 + headerSize];
        ParseDirectoryCount(header, headerSize / RECORD_SIZE);
        Ok(Parsed(headerSize, ParseDirectory(header, headerSize / RECORD_SIZE)))
  }

  /** The content region of a parsed buffer: everything after the header. */
  function ContentRegion(blob: seq<byte>, headerSize: int32): seq<byte>
    requires 0 <= headerSize <= |blob| - 4
  {
    blob[4 + headerSize..]
  }

  /** The buffer compaction writes: header size, header records in `order`, content. */
  function SerializeBlob(order: seq<UUID>, dir: map<UUID, int64>, content: seq<byte>): (bs: seq<byte>)
    requires forall k :: k in order ==> k in dir
    requires RECORD_SIZE * |order| < TWO_31
    ensures |bs| == 4 + RECORD_SIZE * |order| + |content|
  {
    IntBytes(RECORD_SIZE * |order|) + HeaderOf(order, dir) + content
  }

  /** The createFromBlob(toBlob()) round trip: every written key comes back with its descriptor, and the content region is recovered. */
  lemma ParseSerialized(order: seq<UUID>, dir: map<UUID, int64>, content: seq<byte>)
    requires forall k :: k in dir <==> k in order
    requires RECORD_SIZE * |order| < TWO_31
    ensures var blob := SerializeBlob(order, dir, content);
      && ParseBlob(blob) == Ok(Parsed(RECORD_SIZE * |order|, dir))
      && ContentRegion(blob, RECORD_SIZE * |order|) == content
  {
    var hs := RECORD_SIZE * |order|;
    var blob := SerializeBlob(order, dir, content);
    assert blob[..4] == IntBytes(hs);
    ReadIntBytes(hs);
    assert blob[4..4 + hs] == HeaderOf(order, dir);
    assert hs / RECORD_SIZE == |order|;
    ParseHeaderOf(order, dir, |order|);
    assert order[..|order|] == order;
    assert (map k | k in order :: dir[k]) == dir;
    assert blob[4 + hs..] == content;
  }
}
