/**
 * The descriptor codec: a Java long whose high 32 bits are a record's size
 * (4-byte stored hash included) and whose low 32 bits are the record's offset
 * in the content region. The long -1 marks an entry that lives only in the
 * decode cache.
 */
module Descriptors {
  import opened Buffers

  /** The sentinel `-1L`: the value is pending, held only in the cache. */
  const PENDING: int64 := -1

  /** `(int) (met >>> 32)`. */
  function SizeOf(d: int64): int32
  {
    S32(U64(d) / TWO_32)
  }

  /** `(int) (met & POSITION_MASK)`. */
  function OffsetOf(d: int64): int32
  {
    S32(U64(d) % TWO_32)
  }

  /** `(((long) size << 32) & 0xffff_ffff_0000_0000L) | (position & POSITION_MASK)`. */
  function Pack(size: int32, position: int64): int64
  {
    S64(U32(size) * TWO_32 + position % TWO_32)
  }

  /** `(met & 0xffff_ffff_0000_0000L) | (position & POSITION_MASK)`: same size, new offset. */
  function Rebase(d: int64, position: int64): int64
  {
    S64(U64(d) / TWO_32 * TWO_32 + position % TWO_32)
  }

  /** Unpacking a packed descriptor gives back its size, and the low 32 bits of its offset. */
  lemma PackFields(size: int32, position: int64)
    ensures SizeOf(Pack(size, position)) == size
    ensures OffsetOf(Pack(size, position)) == S32(position % TWO_32)
    ensures 0 <= position < TWO_31 ==> OffsetOf(Pack(size, position)) == position
  {
    var u := U32(size) * TWO_32 + position % TWO_32;
    assert U64(Pack(size, position)) == u;
    assert u / TWO_32 == U32(size);
    assert u % TWO_32 == position % TWO_32;
  }

  /** Rebasing keeps the size bits exactly and only replaces the offset. */
  lemma RebaseFields(d: int64, position: int64)
    ensures SizeOf(Rebase(d, position)) == SizeOf(d)
    ensures OffsetOf(Rebase(d, position)) == S32(position % TWO_32)
    ensures 0 <= position < TWO_31 ==> OffsetOf(Rebase(d, position)) == position
    ensures Rebase(d, position) == Pack(SizeOf(d), position)
  {
    var hi := U64(d) / TWO_32;
    var u := hi * TWO_32 + position % TWO_32;
    assert U64(Rebase(d, position)) == u;
    assert u / TWO_32 == hi;
    assert u % TWO_32 == position % TWO_32;
    assert U32(SizeOf(d)) == hi;
  }

  /** A descriptor is determined by its two fields. */
  lemma PackUnpack(d: int64)
    ensures Pack(SizeOf(d), OffsetOf(d)) == d
  {
    var u := U64(d);
    assert U32(SizeOf(d)) == u / TWO_32;
    assert OffsetOf(d) % TWO_32 == u % TWO_32;
    assert u / TWO_32 * TWO_32 + u % TWO_32 == u;
  }

  /** Only a size field of -1 can pack to the sentinel, so no real record is ever pending. */
  lemma PackIsPending(size: int32, position: int64)
    ensures Pack(size, position) == PENDING <==> size == -1 && position % TWO_32 == TWO_32 - 1
  {
    PackFields(size, position);
    if Pack(size, position) == PENDING {
      assert U64(PENDING) == TWO_64 - 1;
      assert SizeOf(PENDING) == -1;
      assert OffsetOf(PENDING) == -1;
    }
  }

  /** The sentinel's fields are both -1, so it never describes a readable record. */
  lemma PendingFields()
    ensures SizeOf(PENDING) == -1 && OffsetOf(PENDING) == -1
  {
  }

  /** Rebasing twice at the same position is rebasing once. */
  lemma RebaseIdempotent(d: int64, position: int64)
    ensures Rebase(Rebase(d, position), position) == Rebase(d, position)
  {
    RebaseFields(d, position);
    RebaseFields(Rebase(d, position), position);
    PackUnpack(Rebase(d, position));
    PackUnpack(Rebase(Rebase(d, position), position));
  }
}
