/**
 * The ring FIFO of bytes from util/fifo.h: caller-owned storage, a capacity,
 * a fill count and read/write cursors that wrap modulo the capacity.
 * Overflow and underflow are reported through return values, never by failing.
 */
module Fifos {
  import opened Common

  /** The `n` bytes of a ring of capacity `total` over `buf`, oldest first, starting at cursor `rd`. */
  ghost function Ring(buf: seq<bv8>, total: nat, rd: nat, n: nat): (r: seq<bv8>)
    requires total <= |buf|
    requires n > 0 ==> total > 0
    ensures |r| == n
  {
    seq(n, i requires 0 <= i < n => buf[(rd + i) % total])
  }

  /** Below twice the modulus, reduction is at most one subtraction. */
  lemma ModSmall(x: nat, m: nat)
    requires 0 < m && x < 2 * m
    ensures x % m == if x < m then x else x - m
  {
    if x < m {
      assert x == 0 * m + x;
    } else {
      assert x == 1 * m + (x - m);
    }
  }

  /** Storing at the write cursor (read cursor plus count) appends to the ring's contents. */
  lemma {:induction false} RingPush(buf: seq<bv8>, total: nat, rd: nat, n: nat, b: bv8)
    requires 0 < total <= |buf| && rd < total && n < total
    ensures Ring(buf[(rd + n) % total := b], total, rd, n + 1) == Ring(buf, total, rd, n) + [b]
  {
    var w := (rd + n) % total;
    ModSmall(rd + n, total);
    var after := Ring(buf[w := b], total, rd, n + 1);
    var before := Ring(buf, total, rd, n);
    forall i | 0 <= i < n
      ensures after[i] == before[i]
    {
      ModSmall(rd + i, total);
    }
  }

  /** Advancing the read cursor by one (modulo the capacity) drops the ring's oldest byte. */
  lemma {:induction false} RingPop(buf: seq<bv8>, total: nat, rd: nat, n: nat)
    requires 0 < total <= |buf| && rd < total && 0 < n <= total
    ensures Ring(buf, total, (rd + 1) % total, n - 1) == Ring(buf, total, rd, n)[1..]
  {
    ModSmall(rd + 1, total);
    var after := Ring(buf, total, (rd + 1) % total, n - 1);
    var before := Ring(buf, total, rd, n);
    forall i | 0 <= i < n - 1
      ensures after[i] == before[i + 1]
    {
      ModSmall(rd + 1 + i, total);
      ModSmall((rd + 1) % total + i, total);
    }
  }

  /** struct fifo_t together with the operations of util/fifo.h. */
  class Fifo {
    var buffer: array<bv8>
    var totalSz: U8
    var storedSz: U8
    var readPtr: U8
    var writePtr: U8
    /** The bytes held, oldest first. */
    ghost var Contents: seq<bv8>

    ghost predicate Valid()
      reads this, buffer
    {
      && totalSz <= buffer.Length
      && storedSz <= totalSz
      && (totalSz == 0 ==> readPtr == 0 && writePtr == 0)
      && (totalSz > 0 ==> readPtr < totalSz && writePtr < totalSz
                          && writePtr == (readPtr + storedSz) % totalSz)
      && Contents == Ring(buffer[..], totalSz, readPtr, storedSz)
    }

    /** A statically allocated fifo_t before fifo_init: every field zero, no storage. */
    constructor ()
      ensures Valid() && fresh(buffer)
      ensures totalSz == 0 && storedSz == 0 && readPtr == 0 && writePtr == 0
      ensures Contents == []
    {
      buffer := new bv8[0];
      totalSz, storedSz, readPtr, writePtr := 0, 0, 0, 0;
      Contents := [];
    }

    /** fifo_empty: discards the contents by zeroing count and cursors; storage is not touched. */
    method Empty()
      requires Valid()
      modifies this
      ensures Valid()
      ensures storedSz == 0 && readPtr == 0 && writePtr == 0
      ensures buffer == old(buffer) && totalSz == old(totalSz)
      ensures buffer[..] == old(buffer[..])
      ensures Contents == []
    {
      storedSz := 0;
      readPtr := 0;
      writePtr := 0;
      Contents := [];
      if totalSz > 0 {
        ModSmall(0, totalSz);
      }
    }

    /** fifo_init: empties the FIFO, then binds the caller's storage and its size. */
    method Init(storage: array<bv8>, sz: U8)
      requires sz <= storage.Length
      modifies this
      ensures Valid()
      ensures buffer == storage && totalSz == sz
      ensures storedSz == 0 && readPtr == 0 && writePtr == 0
      ensures storage[..] == old(storage[..])
      ensures Contents == []
    {
      storedSz := 0;
      readPtr := 0;
      writePtr := 0;
      buffer := storage;
      totalSz := sz;
      Contents := [];
      if sz > 0 {
        ModSmall(0, sz);
      }
    }

    /**
     * fifo_peek_one, which usart.c calls but the source never defines:
     * reports whether a byte is available, without consuming it.
     */
    function PeekOne(): (available: bool)
      reads this, buffer
      requires Valid()
      ensures available <==> Contents != []
    {
      storedSz != 0
    }

    /** fifo_read_one: the oldest byte (0..255), or -1 when the FIFO is empty. */
    method ReadOne() returns (r: int)
      requires Valid()
      modifies this
      ensures Valid() && buffer == old(buffer) && totalSz == old(totalSz)
      ensures old(storedSz) == 0 ==>
        r == -1 && storedSz == 0 && readPtr == old(readPtr) && writePtr == old(writePtr)
      ensures old(storedSz) != 0 ==>
        && 0 <= r < 256 && r == buffer[old(readPtr)] as int
        && storedSz == old(storedSz) - 1
        && readPtr == (old(readPtr) + 1) % totalSz
        && writePtr == old(writePtr)
      ensures old(Contents) == [] ==> Contents == []
      ensures old(Contents) != [] ==> r == old(Contents)[0] as int && Contents == old(Contents)[1..]
    {
      if storedSz == 0 {
        return -1;
      }
      RingPop(buffer[..], totalSz, readPtr, storedSz);
      ModSmall(readPtr, totalSz);
      ModSmall(readPtr + 1, totalSz);
      ModSmall(readPtr + storedSz, totalSz);
      ModSmall((readPtr + 1) % totalSz + storedSz - 1, totalSz);
      r := buffer[readPtr] as int;
      storedSz := storedSz - 1;
      readPtr := (readPtr + 1) % totalSz;
      Contents := Contents[1..];
    }

    /** fifo_write_one: 1 when `b` was stored, 0 when the FIFO is full (nothing changes then). */
    method WriteOne(b: bv8) returns (r: U8)
      requires Valid()
      modifies this, buffer
      ensures Valid() && buffer == old(buffer) && totalSz == old(totalSz)
      ensures old(storedSz) >= totalSz ==>
        && r == 0 && buffer[..] == old(buffer[..])
        && storedSz == old(storedSz) && readPtr == old(readPtr) && writePtr == old(writePtr)
        && Contents == old(Contents)
      ensures old(storedSz) < totalSz ==>
        && r == 1 && buffer[..] == old(buffer[..])[old(writePtr) := b]
        && storedSz == old(storedSz) + 1
        && writePtr == (old(writePtr) + 1) % totalSz
        && readPtr == old(readPtr)
        && Contents == old(Contents) + [b]
    {
      if storedSz >= totalSz {
        return 0;
      }
      RingPush(buffer[..], totalSz, readPtr, storedSz, b);
      ModSmall(readPtr + storedSz, totalSz);
      ModSmall(readPtr + storedSz + 1, totalSz);
      ModSmall(writePtr + 1, totalSz);
      buffer[writePtr] := b;
      storedSz := storedSz + 1;
      writePtr := (writePtr + 1) % totalSz;
      Contents := Contents + [b];
      r := 1;
    }

    /**
     * fifo_read, with the local `byte` (undeclared in the source) taken as
     * the result of a first fifo_read_one before the loop. The loop stores a
     * byte and then reads the next one, so when `sz` runs out while bytes
     * remain, one more byte has already been taken out and is lost: the
     * FIFO gives up min(sz + 1, stored) bytes, of which min(sz, stored) are
     * delivered.
     */
    method Read(dest: array<bv8>, sz: U8) returns (count: U8)
      requires Valid() && dest != buffer && sz <= dest.Length
      modifies this, dest
      ensures Valid() && buffer == old(buffer) && totalSz == old(totalSz)
      ensures count == Min(sz, |old(Contents)|)
      ensures dest[..count] == old(Contents)[..count]
      ensures dest[count..] == old(dest[count..])
      ensures Contents == old(Contents)[Min(sz + 1, |old(Contents)|)..]
    {
      ghost var c0 := Contents;
      var b := ReadOne();
      count := 0;
      var left := sz;
      while left != 0 && b >= 0
        invariant Valid() && buffer == old(buffer) && totalSz == old(totalSz)
        invariant count + left == sz
        invariant count <= |c0|
        invariant b >= 0 <==> count < |c0|
        invariant b >= 0 ==> b < 256 && b == c0[count] as int
        invariant Contents == c0[Min(count + 1, |c0|)..]
        invariant dest[..count] == c0[..count]
        invariant dest[count..] == old(dest[count..])
      {
        dest[count] := b as bv8;
        left := left - 1;
        count := count + 1;
        b := ReadOne();
      }
    }

    /**
     * fifo_write: writes the first `sz` bytes of `src` one by one and stops
     * at the first write the FIFO refuses; returns how many were stored.
     */
    method Write(src: seq<bv8>, sz: U8) returns (count: U8)
      requires Valid() && sz <= |src|
      modifies this, buffer
      ensures Valid() && buffer == old(buffer) && totalSz == old(totalSz)
      ensures count == Min(sz, totalSz - |old(Contents)|)
      ensures Contents == old(Contents) + src[..count]
    {
      count := 0;
      var left := sz;
      var full := false;
      while left != 0 && !full
        invariant Valid() && buffer == old(buffer) && totalSz == old(totalSz)
        invariant count + left == sz
        invariant Contents == old(Contents) + src[..count]
        invariant full ==> |Contents| == totalSz
        decreases left, !full
      {
        var ok := WriteOne(src[count]);
        if ok == 0 {
          full := true;
        } else {
          left := left - 1;
          count := count + 1;
        }
      }
    }
  }
}
