# ConstantMap: a verified model

`ConstantMap` (backend/dev/penpot/ConstantMap.java) is a persistent map from
UUIDs to opaque values. All of it lives in one byte buffer:

    [headerSize:4][headerSize/24 records of msb:8 lsb:8 descriptor:8][content]

All integers are big-endian, as in the default `ByteBuffer` order. A
descriptor packs a record's size into its high 32 bits and the record's
offset within the content region into its low 32 bits. The descriptor `-1L`
means the entry is pending: its value lives only in the decode cache. A
content record is `[hash:4][encoded payload]`, and its size counts the four
hash bytes.

Reads are lazy. `get` first looks in the cache. On a miss with a descriptor
it copies out the payload, decodes it and memoises the value in the cache. A
key that is not in the directory is memoised as `null`. `set` and `without`
return a new map that shares the buffer and counts one more pending update.
`compact` makes two passes over the directory in one iteration order:

- the first pass sizes the new content region and encodes the pending values;
- the second pass writes a fresh buffer. It copies untouched records verbatim
  to a running cursor and writes pending ones as hash followed by payload.

The compacted buffer then replaces the old one. `toBlob` compacts and hands
out the array.

The project is split into these modules:

- `Wrappers`: `Option` and `Result`.
- `Buffers`: Java `int`/`long` as bounded integers, two's-complement
  conversion, and big-endian reads and writes. It also defines the splice
  operation that models `ByteBuffer.put` at an index.
- `Descriptors`: the shift and mask arithmetic of the descriptor word.
- `Layout`: header records, parsing the directory out of a header, and the
  serialised blob.
- `Snapshots`: the value-level state as a directory, a cache and the content
  bytes. It holds `get` as `Lookup` plus `AfterGet`, as well as `getHashEq`,
  `set`, `without`, `createFromBlob` and the invariants those keep.
- `Compaction`: what `compact` computes. That is the record sizes, the
  relocated directory, the new content and blob, the tiling and round-trip
  lemmas, and the two defects described under Findings.
- `Store`: the imperative part. It has the class `ConstantMap` with its six
  fields over an `array<byte>`, the two loops of `compact` (`Measure` and
  `Fill`), and the record loop of `createFromBlob`. Each is proved against
  the functions of `Compaction`, `Layout` and `Snapshots`.

The encoder, the decoder and the per-value hash function are foreign
callbacks. They are modelled as the three fields of a `Codec` passed as a
parameter. The iteration order of the host hash map is a parameter `order`
that must list every directory key exactly once. Both passes of `compact`
use it.

`ContainsKey` and `Count` are plain reads of the directory (`key in
positions`, `|positions|`). What is proved about them sits elsewhere:

- `Get` leaves `positions` alone.
- `CompactedSound` says compaction keeps the key set.
- `ParseDirectoryCountDistinct` gives the count of a parsed blob.

The pending counter is a Java `int`, and `Set` and `Without` add one to it
with wrap-around. After 2^32 updates it is 0 again. `ToBlob` then returns
the old buffer without the updates, as its `old(pending) == 0` case states.

## Model

| member | source | states |
|---|---|---|
| Descriptors.SizeOf | backend/dev/penpot/ConstantMap.java:252-252 | the size field of a descriptor, `(int)(met >>> 32)`; constrained by PackFields, RebaseFields and PackUnpack |
| Descriptors.OffsetOf | backend/dev/penpot/ConstantMap.java:253-253 | the offset field of a descriptor, `(int)(met & POSITION_MASK)`; constrained by PackFields, RebaseFields and PackUnpack |
| Descriptors.Pack | backend/dev/penpot/ConstantMap.java:359-359 | the descriptor of a freshly written record; PackFields gives back its size and cursor, and PackIsPending says when it is the sentinel |
| Descriptors.Rebase | backend/dev/penpot/ConstantMap.java:344-344 | an untouched descriptor moved to the cursor; RebaseFields says it keeps the size and takes the cursor as offset, and RebaseIdempotent that it is stable |
| Descriptors.PackFields | backend/dev/penpot/ConstantMap.java:357-359 | packing a size and a cursor gives back that size and the cursor modulo 2^32 as the offset, which is exactly the cursor when it is below 2^31 |
| Descriptors.RebaseFields | backend/dev/penpot/ConstantMap.java:341-344 | rebasing keeps the size bits and replaces only the offset with the new cursor; it equals packing the old size at the cursor |
| Descriptors.PackUnpack | backend/dev/penpot/ConstantMap.java:252-253 | splitting any descriptor into size and offset and packing them again gives the same 64-bit word |
| Descriptors.PackIsPending | backend/dev/penpot/ConstantMap.java:306-306 | a packed descriptor is the pending sentinel -1 exactly when the size is -1 and the cursor's low 32 bits are all ones |
| Descriptors.PendingFields | backend/dev/penpot/ConstantMap.java:251-253 | the sentinel read as a descriptor has size -1 and offset -1 |
| Descriptors.RebaseIdempotent | backend/dev/penpot/ConstantMap.java:344-344 | rebasing an already rebased descriptor at the same cursor changes nothing |
| Buffers.IntBytes | backend/dev/penpot/ConstantMap.java:325-325 | the four big-endian bytes putInt writes; always four bytes long, and ReadIntBytes reads them back |
| Buffers.LongBytes | backend/dev/penpot/ConstantMap.java:336-346 | the eight big-endian bytes putLong writes; always eight bytes long, and ReadLongBytes reads them back |
| Buffers.ReadInt | backend/dev/penpot/ConstantMap.java:71-71 | getInt over four bytes; ReadIntBytes makes it the inverse of IntBytes |
| Buffers.ReadLong | backend/dev/penpot/ConstantMap.java:80-82 | getLong over eight bytes; ReadLongBytes makes it the inverse of LongBytes |
| Buffers.FromToBigEndian | backend/dev/penpot/ConstantMap.java:80-82 | decoding the n-byte big-endian encoding of a number below 256^n gives the number back |
| Buffers.ReadIntBytes | backend/dev/penpot/ConstantMap.java:325-325 | the four bytes written by putInt read back as the same int with getInt(0) (line 71) |
| Buffers.ReadLongBytes | backend/dev/penpot/ConstantMap.java:336-346 | the eight bytes written by putLong read back as the same long with getLong (lines 80-82) |
| Buffers.SpliceTwice | backend/dev/penpot/ConstantMap.java:368-369 | two relative puts one after the other write the concatenation of their bytes |
| Layout.EntryKey | backend/dev/penpot/ConstantMap.java:80-81 | the UUID of the i-th header record, from its msb and lsb longs; EntryRoundTrip and HeaderOfParses constrain it |
| Layout.EntryDescriptor | backend/dev/penpot/ConstantMap.java:82-82 | the descriptor of the i-th header record; EntryRoundTrip and HeaderOfParses constrain it |
| Layout.EntryBytes | backend/dev/penpot/ConstantMap.java:336-361 | the 24 bytes of a header record, the msb, lsb and descriptor longs put at lines 336-337 and 346 or 361; always 24 bytes long, and EntryRoundTrip reads key and descriptor back |
| Layout.ContentRegion | backend/dev/penpot/ConstantMap.java:73-73 | the content view, the bytes after the header; ParseSerialized says that for a serialised blob it is exactly the content that was laid out |
| Layout.ParseDirectory | backend/dev/penpot/ConstantMap.java:78-84 | the directory the record loop builds; ParseDirectoryKeys, ParseDirectoryLast, ParseDirectoryCount and ParseHeaderOf state its keys, values and size |
| Layout.HeaderOf | backend/dev/penpot/ConstantMap.java:336-366 | the header a compaction writes, 24 bytes per key of the order; HeaderOfEntry and ParseHeaderOf state its contents |
| Layout.SerializeBlob | backend/dev/penpot/ConstantMap.java:319-369 | header size, header and content laid end to end, 4 + 24n + content bytes long; ParseSerialized parses it back |
| Layout.ParseDirectoryKeys | backend/dev/penpot/ConstantMap.java:78-84 | the parsed directory's key set is exactly the set of keys in the first n header records |
| Layout.ParseDirectoryLast | backend/dev/penpot/ConstantMap.java:83-83 | a key maps to the descriptor of its last record, since a later assoc replaces an earlier one |
| Layout.ParseDirectoryCount | backend/dev/penpot/ConstantMap.java:194-196 | count() after parsing n records is at most n |
| Layout.ParseDirectoryCountDistinct | backend/dev/penpot/ConstantMap.java:194-196 | with pairwise distinct keys, count() after parsing n records is exactly n |
| Layout.ParseDirectoryAbsent | backend/dev/penpot/ConstantMap.java:78-84 | a key that no record names is not in the parsed directory |
| Layout.HeaderOfEntry | backend/dev/penpot/ConstantMap.java:336-366 | the i-th 24-byte slot of a written header holds msb, lsb and descriptor of the i-th key in order |
| Layout.EntryRoundTrip | backend/dev/penpot/ConstantMap.java:79-82 | reading a record written as msb, lsb, descriptor gives back that key and that descriptor |
| Layout.ParseHeaderOf | backend/dev/penpot/ConstantMap.java:78-84 | parsing the first n records of a written header gives the directory restricted to the first n keys of the order |
| Layout.ParseBlob | backend/dev/penpot/ConstantMap.java:70-75 | parsing succeeds exactly when the blob has 4 bytes and a header size between 0 and the rest; it then reports that size and at most headerSize/24 keys |
| Layout.ParseSerialized | backend/dev/penpot/ConstantMap.java:70-92 | parsing a serialised blob gives back its header size, its whole key-to-descriptor map and its content region |
| Snapshots.Lookup | backend/dev/penpot/ConstantMap.java:245-266 | get returns the cached value on a hit and null for an unknown key; on a miss with a descriptor it succeeds exactly when [pos+4, pos+size) lies in the content view (else NegativeArraySize or IndexOutOfBounds), and it returns the decoded payload |
| Snapshots.LookupStraySentinel | backend/dev/penpot/ConstantMap.java:251-256 | a key whose descriptor is the sentinel -1 but which has no cached value (a header record holding -1L) fails get with NegativeArraySize, since its size field is -1; uses PendingFields |
| Snapshots.LookupFault | backend/dev/penpot/ConstantMap.java:256-257 | a miss whose payload [pos+4, pos+size) is not inside the content fails: with NegativeArraySize when the size is below 4 and size-4 does not wrap, and with IndexOutOfBounds in every other case |
| Snapshots.LookupOfRecord | backend/dev/penpot/ConstantMap.java:256-259 | the bytes decoded are the stored record without its first four hash bytes |
| Snapshots.AfterGet | backend/dev/penpot/ConstantMap.java:260-264 | get leaves directory and content unchanged, memoises a successful result under the key, memoises nothing on failure, and leaves every other cache entry as it was |
| Snapshots.GetMemoises | backend/dev/penpot/ConstantMap.java:246-248 | after one successful get the key is cached, so a second get returns the same value whatever the decoder and leaves the state as it is |
| Snapshots.GetIsInvisible | backend/dev/penpot/ConstantMap.java:260-264 | memoisation is unobservable: after get(k), every get(j) returns what it returned before |
| Snapshots.HashEq | backend/dev/penpot/ConstantMap.java:268-276 | getHashEq hashes a cached value, raises NullPointer for a cached null or an unknown key, and otherwise returns the int stored at the descriptor's offset, failing with IndexOutOfBounds, and only then, when four bytes do not fit there; a readable record gives its stored hash (HashEqOfRecord) |
| Snapshots.HashEqOfRecord | backend/dev/penpot/ConstantMap.java:272-274 | for an uncached key, getHashEq returns the first four bytes of the stored record |
| Snapshots.Assoc | backend/dev/penpot/ConstantMap.java:236-243 | set adds the key to the directory and keeps the content bytes |
| Snapshots.Dissoc | backend/dev/penpot/ConstantMap.java:158-166 | without removes the key from the directory and keeps the content bytes |
| Snapshots.AssocLookup | backend/dev/penpot/ConstantMap.java:236-243 | after set(k, v), get(k) returns v and get of any other key is unchanged |
| Snapshots.DissocLookup | backend/dev/penpot/ConstantMap.java:158-166 | after without(k), get(k) returns null and get of any other key is unchanged |
| Snapshots.CoherentLookup | backend/dev/penpot/ConstantMap.java:245-266 | in a coherent state get never fails, and it returns a value exactly for the directory's keys |
| Snapshots.AssocCoherent | backend/dev/penpot/ConstantMap.java:236-243 | set keeps the state coherent |
| Snapshots.DissocCoherent | backend/dev/penpot/ConstantMap.java:158-166 | without keeps the state coherent |
| Snapshots.AfterGetCoherent | backend/dev/penpot/ConstantMap.java:260-264 | get keeps the state coherent |
| Snapshots.FromBlob | backend/dev/penpot/ConstantMap.java:70-92 | createFromBlob succeeds exactly when the header size fits in the blob; the cache starts empty and the content view is the rest of the blob |
| Compaction.Total | backend/dev/penpot/ConstantMap.java:293-317 | contentSize as the first loop evidently means it, the sum of record sizes; TotalStep and TotalPrefix state its steps, and CompactedTiling that it is where the last record ends |
| Compaction.NewDescriptor | backend/dev/penpot/ConstantMap.java:340-359 | the descriptor a key gets at the cursor, rebased if stored and packed if pending; CompactedTiling states its size and offset |
| Compaction.Relocated | backend/dev/penpot/ConstantMap.java:348-363 | the directory after the second loop; RelocatedKeys, RelocatedAt and CompactedTiling state its keys and descriptors |
| Compaction.Compacted | backend/dev/penpot/ConstantMap.java:379-382 | the state compaction installs; CompactedSound, CompactedRecord, CompactedLookup and RecompactIsIdentity constrain it |
| Compaction.CompactedBlob | backend/dev/penpot/ConstantMap.java:321-373 | the new buffer, 4 + 24n + Total bytes long; ReloadCompacted parses it back and RecompactIsIdentity makes it stable |
| Compaction.AllocatedContentAsWritten | backend/dev/penpot/ConstantMap.java:312-312 | contentSize as written, without the hash bytes; AllocationShortfall states how short it falls |
| Compaction.PayloadPutAsWritten | backend/dev/penpot/ConstantMap.java:369-369 | the payload put as written, size bytes from a size-4 byte array; PayloadPutAsWrittenFails states that it always fails |
| Compaction.RecordSize | backend/dev/penpot/ConstantMap.java:307-357 | every record is at least four bytes: a stored size, or the encoded length plus the hash |
| Compaction.Record | backend/dev/penpot/ConstantMap.java:352-369 | the record written for a key is as long as its record size |
| Compaction.ContentOf | backend/dev/penpot/ConstantMap.java:331-373 | the new content region is as long as the sum of the record sizes |
| Compaction.TotalStep | backend/dev/penpot/ConstantMap.java:306-313 | the running content size grows by one record size per directory entry |
| Compaction.RelocatedStep | backend/dev/penpot/ConstantMap.java:348-364 | each step of the second loop maps the current key to its descriptor at the current cursor |
| Compaction.RelocatedKeys | backend/dev/penpot/ConstantMap.java:348-363 | the relocated directory has exactly the keys of the iteration order |
| Compaction.ContentOfAt | backend/dev/penpot/ConstantMap.java:349-369 | the i-th record sits in the new content between the prefix sums of the first i and i+1 record sizes |
| Compaction.CompactedTiling | backend/dev/penpot/ConstantMap.java:327-364 | no new descriptor is pending; each has its record's size and the prefix sum as offset, the first starts at 0, each ends where the next starts, and the last ends at the end of the content |
| Compaction.CompactedRecord | backend/dev/penpot/ConstantMap.java:352-369 | after compaction every key's stored record is readable, has its size, and equals the old record copied verbatim or the hash followed by the encoded payload |
| Compaction.CompactedSound | backend/dev/penpot/ConstantMap.java:327-364 | compaction keeps the key set, leaves no sentinel descriptor and yields a state whose records are all in range |
| Compaction.CompactedCoherent | backend/dev/penpot/ConstantMap.java:379-382 | when decode inverts encode, compaction keeps the cache coherent with the new buffer, so the round-trip lemmas hold again after a further set, without or toBlob on the same instance |
| Compaction.CompactedLookup | backend/dev/penpot/ConstantMap.java:379-382 | get returns the same result for every key after compaction as before |
| Compaction.ReloadCompacted | backend/dev/penpot/ConstantMap.java:282-285 | createFromBlob(toBlob()) recovers the relocated key-to-descriptor map, an empty cache and the new content |
| Compaction.RoundTrip | backend/dev/penpot/ConstantMap.java:282-285 | when decode inverts encode, get on createFromBlob(toBlob()) returns for every key what get returned before |
| Compaction.ReloadedLookup | backend/dev/penpot/ConstantMap.java:70-92 | the reloaded compacted state answers every get like the original |
| Compaction.ReloadedHashes | backend/dev/penpot/ConstantMap.java:268-276 | after reloading, getHashEq of a key is its old stored hash, or the hash of its cached value if it was pending |
| Compaction.AlikeLayout | backend/dev/penpot/ConstantMap.java:299-373 | two states that agree on every record lay out the same content and directory |
| Compaction.RecompactIsIdentity | backend/dev/penpot/ConstantMap.java:287-383 | compacting a compacted state again in the same order gives the same state and a byte-identical blob |
| Compaction.AllocationShortfall | backend/dev/penpot/ConstantMap.java:312-312 | as written, the first loop's content size falls short of the bytes written by four per pending entry, so any pending entry overflows the buffer |
| Compaction.PayloadPutAsWrittenFails | backend/dev/penpot/ConstantMap.java:369-369 | as written, copying size bytes out of the size-4 byte payload always fails with IndexOutOfBounds |
| Compaction.CopyOut | backend/dev/penpot/ConstantMap.java:369-369 | a bulk put from an array succeeds exactly when offset and length lie within it, and copies length bytes |
| Store.Write | backend/dev/penpot/ConstantMap.java:325-325 | an absolute put writes its bytes at the index and leaves every other byte |
| Store.GetBytes | backend/dev/penpot/ConstantMap.java:256-257 | the bulk get copies exactly the requested range into a fresh array |
| Store.PutEntry | backend/dev/penpot/ConstantMap.java:351-352 | copying an untouched entry writes its header record at 4 + 24i and its old record at the content cursor and changes no other byte, so both written prefixes grow by one record each |
| Store.PutRecord | backend/dev/penpot/ConstantMap.java:368-369 | the hash and then the payload are written back to back from the cursor |
| Store.PutPendingEntry | backend/dev/penpot/ConstantMap.java:366-369 | writing a pending entry writes its header record at 4 + 24i and the hash followed by the payload at the content cursor and changes no other byte, so both written prefixes grow by one record each |
| Store.Measure | backend/dev/penpot/ConstantMap.java:293-317 | the first loop counts every entry, sums the record sizes into contentSize, and stages the encoding and hash of each pending value |
| Store.FillOne | backend/dev/penpot/ConstantMap.java:332-370 | one step of the second loop returns the key's new descriptor and record size, and appends its header record and content record |
| Store.Fill | backend/dev/penpot/ConstantMap.java:327-373 | the second loop leaves the relocated directory and fills the buffer with exactly the compacted blob |
| Store.CompactedParts | backend/dev/penpot/ConstantMap.java:319-325 | bytes 0-3 of the compacted buffer hold 24n, getInt(0) reads 24n back, and everything after the header is the new content |
| Store.Rebuild | backend/dev/penpot/ConstantMap.java:293-373 | both loops together allocate a fresh buffer of 4 + 24n + contentSize bytes holding the compacted blob, and return the relocated directory |
| Store.ConstantMap.constructor | backend/dev/penpot/ConstantMap.java:108-120 | the six fields take the given values |
| Store.ConstantMap.CreateFromBlob | backend/dev/penpot/ConstantMap.java:70-92 | a fresh map over the same array whose state is the parsed blob, with no pending updates and count() at most headerSize/24; IndexOutOfBounds exactly when the header does not fit |
| Store.ConstantMap.ParseRecords | backend/dev/penpot/ConstantMap.java:75-84 | the record loop builds exactly the directory parsed from the first nitems records |
| Store.ConstantMap.ReadRecord | backend/dev/penpot/ConstantMap.java:79-82 | one header record is read as a key of two longs followed by a descriptor, exactly `Layout.EntryKey` and `Layout.EntryDescriptor` of that record |
| Store.ConstantMap.CreateEmpty | backend/dev/penpot/ConstantMap.java:98-102 | the empty map has no keys, no cache entries, an empty content view and count() 0, over a fresh four-byte buffer holding header size 0 |
| Store.ConstantMap.Set | backend/dev/penpot/ConstantMap.java:236-243 | a new map with the key mapped to the sentinel and cached on the value, the same buffer and views, and pending plus one with int wrap-around |
| Store.ConstantMap.Without | backend/dev/penpot/ConstantMap.java:158-166 | a new map with the key gone from directory and cache, the same buffer and views, and pending plus one even when the key was absent |
| Store.ConstantMap.ContainsKey | backend/dev/penpot/ConstantMap.java:170-172 | membership in the directory, whatever the cache holds; ValAt's contract turns on it, and CoherentLookup says that in a coherent state get finds a value exactly for these keys |
| Store.ConstantMap.Count | backend/dev/penpot/ConstantMap.java:194-196 | the number of directory entries; CreateFromBlob bounds it by headerSize/24, CreateEmpty makes it 0, and ParseDirectoryCount and ParseDirectoryCountDistinct give it for a parsed header |
| Store.ConstantMap.Load | backend/dev/penpot/ConstantMap.java:250-259 | the miss path of get computes the result of Lookup from the descriptor and the content view |
| Store.ConstantMap.Get | backend/dev/penpot/ConstantMap.java:245-266 | get returns Lookup of the old state, updates only the cache as AfterGet says, and keeps buffer, views and pending |
| Store.ConstantMap.ValAt | backend/dev/penpot/ConstantMap.java:184-190 | valAt(k, nf) returns nf and changes nothing exactly when k is not in the directory, and otherwise behaves as get |
| Store.ConstantMap.GetHashEq | backend/dev/penpot/ConstantMap.java:268-276 | getHashEq computes HashEq of the current state |
| Store.ConstantMap.Compact | backend/dev/penpot/ConstantMap.java:287-383 | nothing changes when pending is 0; otherwise a fresh buffer holding the compacted blob is installed with its views, the relocated directory and pending 0, and the cache is kept |
| Store.ConstantMap.Install | backend/dev/penpot/ConstantMap.java:379-382 | the new buffer, its header and content views, the new directory and pending 0 are installed |
| Store.ConstantMap.ToBlob | backend/dev/penpot/ConstantMap.java:282-285 | toBlob compacts in place and returns the backing array: with pending updates it is a fresh array holding the compacted blob and the instance's state becomes `Compacted` of the old one with its cache kept, so it keeps answering get (CompactedLookup, CompactedCoherent); without pending updates it is the old array and nothing changes |

## Left out

- Clojure host plumbing is not modelled, being host integration rather than store logic. It comprises `meta`/`withMeta` and `newInstance`, which copy the fields and read no values; `seq`, `iterator` and the `LazyMapEntry`/`LazyMapIterator` wrappers, whose values come from `valAt` and whose hashes come from `getHashEq` (lines 410-411), both modelled; `cons`, which forwards to `assoc` and so to `set`; `empty`, which calls `createEmpty`; `entryAt`; and `assocEx`, which only throws.
- `assoc(Object, Object)` (lines 150-152) and `valAt(key)` (lines 180-182) only cast and forward to `set` and `get`.
- `hasheq`/`hashCode` through `Murmur3.hashUnordered` are foreign hash functions. `equiv` has an empty body (line 215), so there is no behaviour to model.
- The internals of `encodeFn`/`decodeFn`/`Util.hasheq` are left out. They are the uninterpreted fields of `Codec`, and `Inverse` states the one assumption the round-trip needs. Their static setters (lines 58-64) are global configuration and are not modelled. Exceptions thrown by these callbacks are not modelled either.
- `Snapshots.HashEq`: every value is assumed to implement `IHashEq`. On the cached path, line 270 casts the value to `IHashEq` and calls its `hasheq()`. The source throws `ClassCastException` for any other value, such as a `String` or a `Long`, and the model does not. The model also uses one function, `Codec.hasheq`, both for that call and for `Util.hasheq` at line 315, so it assumes the two agree. `Compaction.ReloadedHashes` depends on that.
- The `createFromBlob(byte[])` overload (lines 94-96) only wraps the array. `CreateFromBlob` takes the array directly.
- `ByteBuffer` positions, `slice`, `rewind` and `clear` are not modelled. The model keeps the bytes they expose: a view is a `Slice(start, length)` of the array, and `src` is the bytes of the old content view. Relative puts become writes at the computed index.
- `Store.ConstantMap.Compact`: requires `Compactable` when updates are pending: every stored record of at least 4 bytes lies in the content, every pending key has a cached non-null value, and the new buffer is below 2^31 bytes. Compaction of states outside it is not modelled. For most of them the source throws part-way through: an `IndexOutOfBoundsException` for a record outside the content, or a negative allocation after int overflow. Two kinds of input are excluded although the source need not throw on them:
  - a stored record of 0 to 3 bytes inside the content, which lines 341-352 copy verbatim (`slice(prevPos, size)` accepts any size from 0);
  - a pending key without a cached value, for instance from a blob whose record holds `-1L`. For such a key lines 310-311 pass `null` to `encodeFn`, whose behaviour the model does not know.
- `Store.ConstantMap.ToBlob`: calls `Compact`, so it has the same `Compactable` precondition when updates are pending. It excludes the same inputs that the previous item lists, including the two on which the source's `toBlob` need not throw.
- `Store.ConstantMap.Compact`: the source reassigns `positions` entry by entry inside the second loop (lines 348 and 363), but the model installs the finished directory once at the end. As written, line 368 or line 369 throws for every pending entry, after line 363 has already relocated the descriptors. Line 368 throws `BufferOverflowException` when fewer than 4 bytes are left in the short content slice; otherwise line 369 throws `IndexOutOfBoundsException`. The instance is then left with new descriptors over the old `content`, so later `get`s read the wrong bytes. The model follows the corrected lines 312 and 369, under which the loop does not throw, so this partial state does not arise.
- `Store.ConstantMap.Compact`: the host map's iteration order is the parameter `order`, which must enumerate the directory keys. It is the same sequence for both loops.
- Java exceptions are `Err` results carrying `IndexOutOfBounds`, `NegativeArraySize` or `NullPointer`. `OutOfMemoryError` is not modelled.
- `set` with a `null` value is not modelled: the cache holds `Some(v)` for a value set by `set` and `None` only for the memoised `null` of an unknown key.
- Lines 155, 160 and 297 would not compile (a missing `new`, `withiut`, `HashMap<UUID,int>`). Line 160 is modelled as the evidently intended `without`, and line 297 as a map to ints. `assocEx` (line 155) is not modelled, as the item on host plumbing says.
- The UUIDv8 reference in the header comment is unrelated to this class. There is no concurrency.

## Findings

| source | as written | input that shows it | evidently intended | confidence | as-written member | corrected member |
|---|---|---|---|---|---|---|
| backend/dev/penpot/ConstantMap.java:312 | the first loop adds only `bval.length` for a pending entry, while the second loop writes `bval.length + 4` bytes (line 357) | any map with one pending entry, e.g. `createEmpty().set(k, v).compact()`: the content slice is 4 bytes too short for the second loop, so line 368 or line 369 throws | `contentSize += bval.length + 4`, so the buffer holds exactly the records written | not executed | Compaction.AllocatedContentAsWritten, Compaction.AllocationShortfall | Compaction.Total, Store.Measure |
| backend/dev/penpot/ConstantMap.java:369 | `content.put(bval, 0, size)` copies `size = bval.length + 4` bytes out of `bval` | any pending entry that reaches line 369: the source range [0, size) exceeds `bval` by 4 bytes, so the put throws `IndexOutOfBoundsException`. With fewer than 4 bytes left in the slice, `putInt` at line 368 throws `BufferOverflowException` first | `content.put(bval)`, writing exactly the payload after the hash | not executed | Compaction.PayloadPutAsWritten, Compaction.PayloadPutAsWrittenFails | Compaction.Record, Store.PutPendingEntry |
