/** The ring buffer behind a connection's writer: a fixed array, a fill count and a write position. */
module RingBuffer {
  import opened Common
  import opened Numbers

  type Byte = bv8

  function Min(a: int, b: int): int {
    if a < b then a else b
  }

  /** The n bytes that start at position start and continue at the front of the array. */
  function Ring(a: seq<Byte>, start: nat, n: nat): seq<Byte>
    requires start <= |a| && n <= |a|
  {
    if start + n <= |a| then a[start..start + n] else a[start..] + a[..start + n - |a|]
  }

  lemma {:induction false} ModWraps(x: int, m: int)
    requires 0 <= x < 2 * m
    ensures x % m == if x < m then x else x - m
  {
    if x >= m {
      assert x / m == 1;
    }
  }

  /** Where the oldest byte is. */
  function Oldest(capacity: int, size: int, writePos: int): int {
    if writePos < size then writePos - size + capacity else writePos - size
  }

  /** read_pos computes it with a remainder. */
  function ReadPos(capacity: int, size: int, writePos: int): (r: int)
    requires 0 <= size <= capacity && 0 <= writePos < capacity
    ensures r == Oldest(capacity, size, writePos)
  {
    ModWraps(writePos - size + capacity, capacity);
    (writePos - size + capacity) % capacity
  }

  /** The write position after n more bytes. */
  function Advanced(capacity: int, writePos: int, n: int): (r: int)
    requires 0 <= writePos < capacity && 0 <= n && writePos + n <= capacity
    ensures r == if writePos + n < capacity then writePos + n else 0
  {
    ModWraps(writePos + n, capacity);
    (writePos + n) % capacity
  }

  predicate ReadPosFits(capacity: int, size: int, writePos: int) {
    Fits32(writePos - size) && Fits32(writePos - size + capacity)
  }

  /** read_pos stays within 32 bits, whatever the buffer holds, up to a capacity of 2^30 and not beyond. */
  lemma {:induction false} ReadPosFitsExactly(capacity: int)
    requires 0 < capacity && Fits32(capacity)
    ensures (forall size, writePos :: 0 <= size <= capacity && 0 <= writePos < capacity ==>
               ReadPosFits(capacity, size, writePos)) <==>
            capacity <= 0x4000_0000
  {
    assert ReadPosFits(capacity, 0, capacity - 1) <==> capacity <= 0x4000_0000;
  }

  /** So do the other sums at every capacity: the free space, the stretches to read and to fill, the new write position. */
  lemma {:induction false} OtherSumsFit(capacity: int, size: int, writePos: int, copySize: int)
    requires Fits32(capacity) && 0 <= size <= capacity && 0 <= writePos < capacity
    ensures var readPos := ReadPos(capacity, size, writePos);
      && Fits32(capacity - size) && Fits32(capacity - readPos) && Fits32(capacity - writePos)
      && Fits32(writePos - readPos) && Fits32(readPos - writePos)
      && (size < capacity && 0 < copySize <= (if readPos <= writePos then capacity - writePos else readPos - writePos) ==>
            Fits32(writePos + copySize) && Fits32(size + copySize))
  {
  }

  /** Byte i of the contents is where modular arithmetic says. */
  lemma {:induction false} RingAt(a: seq<Byte>, start: nat, n: nat, i: nat)
    requires start < |a| && i < n <= |a|
    ensures |Ring(a, start, n)| == n && Ring(a, start, n)[i] == a[(start + i) % |a|]
  {
    ModWraps(start + i, |a|);
    assert (start + i) % |a| == if start + i < |a| then start + i else start + i - |a|;
  }

  /** Dropping k bytes moves the start by k, around the end if need be. */
  lemma {:induction false} RingDrop(a: seq<Byte>, start: nat, n: nat, k: nat)
    requires start < |a| && k <= n <= |a|
    ensures var next := if start + k < |a| then start + k else start + k - |a|;
      Ring(a, next, n - k) == Ring(a, start, n)[k..]
  {
  }

  /** Copying a chunk to where the contents end, within one stretch of free space, appends it. */
  lemma {:induction false} RingAppend(a: seq<Byte>, b: seq<Byte>, start: nat, n: nat, chunk: seq<Byte>, at: nat)
    requires |b| == |a| && start < |a| && n + |chunk| <= |a|
    requires at == (if start + n < |a| then start + n else start + n - |a|) && at + |chunk| <= |a|
    requires b == a[..at] + chunk + a[at + |chunk|..]
    ensures Ring(b, start, n + |chunk|) == Ring(a, start, n) + chunk
  {
    if start + n < |a| {
      AppendFlat(a, b, start, chunk, at);
    } else {
      AppendWrapped(a, b, start, chunk, at);
    }
  }

  lemma {:induction false} AppendFlat(a: seq<Byte>, b: seq<Byte>, start: nat, chunk: seq<Byte>, at: nat)
    requires start <= at && at + |chunk| <= |a| && b == a[..at] + chunk + a[at + |chunk|..]
    ensures b[start..at + |chunk|] == a[start..at] + chunk
  {
  }

  lemma {:induction false} AppendWrapped(a: seq<Byte>, b: seq<Byte>, start: nat, chunk: seq<Byte>, at: nat)
    requires at + |chunk| <= start <= |a| && b == a[..at] + chunk + a[at + |chunk|..]
    ensures b[start..] == a[start..] && b[..at + |chunk|] == a[..at] + chunk
    ensures b[start..] + b[..at + |chunk|] == a[start..] + a[..at] + chunk
  {
  }

  class RingBuffer {
    const data: array<Byte>
    var size: int
    var writePos: int

    ghost predicate Valid()
      reads this
    {
      0 <= size <= data.Length && 0 <= writePos && (if data.Length == 0 then writePos == 0 else writePos < data.Length)
    }

    /** What was written and not yet read, oldest byte first. */
    ghost function Contents(): (s: seq<Byte>)
      requires Valid()
      reads this, data
      ensures |s| == size
    {
      if data.Length == 0 then [] else Ring(data[..], Oldest(data.Length, size, writePos), size)
    }

    constructor (capacity: nat)
      ensures Valid() && Contents() == [] && data.Length == capacity && fresh(data)
    {
      data := new Byte[capacity];
      size := 0;
      writePos := 0;
    }

    function Remain(): int
      reads this
    {
      data.Length - size
    }

    /** A stretch of the array that is a prefix of the contents; empty only if they are. */
    method Buffer() returns (start: int, readSize: int)
      requires Valid()
      ensures 0 <= start && 0 <= readSize <= size && start + readSize <= data.Length
      ensures data[start..start + readSize] == Contents()[..readSize]
      ensures size > 0 ==> readSize > 0
    {
      if size == 0 {
        return 0, 0;
      }
      start := ReadPos(data.Length, size, writePos);
      if start < writePos {
        readSize := writePos - start;
      } else {
        readSize := data.Length - start;
      }
    }

    method Forward(n: int) returns (rc: RC)
      requires Valid()
      modifies this`size
      ensures Valid()
      ensures rc == if 0 < n <= old(size) then SUCCESS else INVALID_ARGUMENT
      ensures Contents() == if 0 < n <= old(size) then old(Contents())[n..] else old(Contents())
    {
      if n <= 0 {
        return INVALID_ARGUMENT;
      }
      if n > size {
        return INVALID_ARGUMENT;
      }
      RingDrop(data[..], Oldest(data.Length, size, writePos), size, n);
      size := size - n;
      rc := SUCCESS;
    }

    /** As many bytes as there is room for, in order. A negative size is refused and reports nothing. */
    method Write(bytes: seq<Byte>, n: int, reported: int) returns (rc: RC, writeSize: int)
      requires Valid() && n <= |bytes|
      modifies this, data
      ensures Valid()
      ensures n < 0 ==> rc == INVALID_ARGUMENT && writeSize == reported && Contents() == old(Contents())
      ensures n >= 0 ==> rc == SUCCESS && writeSize == Min(n, old(Remain()))
      ensures n >= 0 ==> Contents() == old(Contents()) + bytes[..writeSize]
    {
      writeSize := reported;
      if n < 0 {
        return INVALID_ARGUMENT, writeSize;
      }
      rc := SUCCESS;
      writeSize := 0;
      ghost var start, room := Contents(), Remain();
      assert start + bytes[..0] == start;
      while writeSize < n && Remain() > 0
        invariant Valid() && rc == SUCCESS
        invariant 0 <= writeSize <= n && writeSize + Remain() == room
        invariant Contents() == start + bytes[..writeSize]
        decreases n - writeSize
      {
        var copied := CopyChunk(bytes[writeSize..n]);
        Taken(start, bytes, writeSize, n, copied);
        writeSize := writeSize + copied;
      }
    }

    /** One round of write: fill the free stretch at the write position. */
    method CopyChunk(bytes: seq<Byte>) returns (copied: int)
      requires Valid() && bytes != [] && Remain() > 0
      modifies this, data
      ensures Valid() && 0 < copied <= |bytes| && Remain() == old(Remain()) - copied
      ensures Contents() == old(Contents()) + bytes[..copied]
    {
      var readPos := ReadPos(data.Length, size, writePos);
      var free := if readPos <= writePos then data.Length - writePos else readPos - writePos;
      copied := Min(|bytes|, free);
      ChunkFits(data.Length, size, writePos, copied);
      PutChunk(bytes[..copied]);
    }

    method PutChunk(chunk: seq<Byte>)
      requires Valid() && chunk != [] && size + |chunk| <= data.Length && writePos + |chunk| <= data.Length
      requires var readPos := Oldest(data.Length, size, writePos);
        |chunk| <= if readPos <= writePos then data.Length - writePos else readPos - writePos
      modifies this, data
      ensures Valid() && size == old(size) + |chunk| && Contents() == old(Contents()) + chunk
    {
      ghost var was := data[..];
      MemCopy(data, writePos, chunk);
      ChunkAppended(was, data[..], size, writePos, chunk);
      writePos := Advanced(data.Length, writePos, |chunk|);
      size := size + |chunk|;
    }

    /** As many bytes as there are, oldest first, to the front of buf. */
    method Read(buf: array<Byte>, n: int, reported: int) returns (rc: RC, readSize: int)
      requires Valid() && n <= buf.Length && buf != data
      modifies this`size, buf
      ensures Valid()
      ensures n < 0 ==> rc == INVALID_ARGUMENT && readSize == reported && Contents() == old(Contents()) && buf[..] == old(buf[..])
      ensures n >= 0 ==> rc == SUCCESS && readSize == Min(n, old(size)) && Contents() == old(Contents())[readSize..]
      ensures n >= 0 ==> buf[..] == old(Contents())[..readSize] + old(buf[..])[readSize..]
    {
      readSize := reported;
      if n < 0 {
        return INVALID_ARGUMENT, readSize;
      }
      rc := SUCCESS;
      ReadStarts(buf);
      readSize := ReadOut(buf, n, Contents(), buf[..]);
    }

    /** The first k bytes of what was there are in the front of buf, and the rest is still to be read. */
    ghost predicate HasRead(buf: array<Byte>, start: seq<Byte>, dst: seq<Byte>, k: nat)
      reads this, data, buf
    {
      && Valid() && |start| == k + size && |dst| == buf.Length && k <= buf.Length
      && Contents() == start[k..] && buf[..] == start[..k] + dst[k..]
    }

    /** A part of the n bytes asked for has been read. */
    ghost predicate IsReading(buf: array<Byte>, start: seq<Byte>, dst: seq<Byte>, k: nat, n: nat)
      reads this, data, buf
    {
      k <= n <= buf.Length && HasRead(buf, start, dst, k)
    }

    lemma {:induction false} ReadEnds(buf: array<Byte>, start: seq<Byte>, dst: seq<Byte>, k: nat, n: nat)
      requires IsReading(buf, start, dst, k, n) && (k >= n || size <= 0)
      ensures k == Min(n, |start|)
    {
    }

    lemma {:induction false} ReadStarts(buf: array<Byte>)
      requires Valid()
      ensures HasRead(buf, Contents(), buf[..], 0) && |Contents()| == size
    {
      AdvanceStart(Contents(), buf[..]);
    }

    /** The loop of read. */
    method ReadOut(buf: array<Byte>, n: nat, ghost start: seq<Byte>, ghost dst: seq<Byte>) returns (readSize: nat)
      requires IsReading(buf, start, dst, 0, n) && buf != data
      modifies this`size, buf
      ensures readSize == Min(n, |start|) && HasRead(buf, start, dst, readSize)
    {
      readSize := 0;
      while readSize < n && size > 0
        invariant IsReading(buf, start, dst, readSize, n)
        decreases n - readSize
      {
        var copied := CopyNext(buf, readSize, n, start, dst);
        readSize := readSize + copied;
      }
      ReadEnds(buf, start, dst, readSize, n);
    }

    /** A round of read that has copied the first `at` bytes. */
    method CopyNext(buf: array<Byte>, at: nat, n: nat, ghost start: seq<Byte>, ghost dst: seq<Byte>) returns (copied: int)
      requires IsReading(buf, start, dst, at, n) && at < n && buf != data && size > 0
      modifies this`size, buf
      ensures 0 < copied && IsReading(buf, start, dst, at + copied, n)
    {
      copied := CopyOut(buf, at, n - at);
      Advance(start, dst, at, copied);
    }

    /** One round of read: copy out one stretch and move past it. */
    method CopyOut(buf: array<Byte>, at: nat, n: int) returns (copied: int)
      requires Valid() && 0 < n && at + n <= buf.Length && buf != data && size > 0
      modifies this`size, buf
      ensures Valid() && 0 < copied <= n && size == old(size) - copied
      ensures Contents() == old(Contents())[copied..]
      ensures buf[..] == old(buf[..])[..at] + old(Contents())[..copied] + old(buf[..])[at + copied..]
    {
      var chunk := Peek(n);
      copied := |chunk|;
      MemCopy(buf, at, chunk);
      var rc := Forward(copied);
    }

    /** At most n bytes of the first stretch. */
    method Peek(n: int) returns (chunk: seq<Byte>)
      requires Valid() && 0 < n && size > 0
      ensures 0 < |chunk| <= n && |chunk| <= size && chunk == Contents()[..|chunk|]
    {
      var start, stretch := Buffer();
      ShorterPrefix(data[start..start + stretch], Contents(), Min(n, stretch));
      chunk := data[start..start + stretch][..Min(n, stretch)];
    }
  }

  /** memcpy. */
  method MemCopy(dst: array<Byte>, at: nat, bytes: seq<Byte>)
    requires at + |bytes| <= dst.Length
    modifies dst
    ensures dst[..] == old(dst[..])[..at] + bytes + old(dst[..])[at + |bytes|..]
  {
    forall i | 0 <= i < |bytes| {
      dst[at + i] := bytes[i];
    }
  }

  /** Overwriting the next k places with the next k bytes makes the copied prefix k longer. */
  lemma {:induction false} Advance(src: seq<Byte>, dst: seq<Byte>, done: nat, k: nat)
    requires done + k <= |src| && done + k <= |dst|
    ensures var now := src[..done] + dst[done..];
      now[..done] + src[done..][..k] + now[done + k..] == src[..done + k] + dst[done + k..]
    ensures src[done..][k..] == src[done + k..]
  {
  }

  lemma {:induction false} ShorterPrefix(stretch: seq<Byte>, contents: seq<Byte>, k: nat)
    requires |stretch| <= |contents| && stretch == contents[..|stretch|] && k <= |stretch|
    ensures stretch[..k] == contents[..k]
  {
  }

  lemma {:induction false} AdvanceStart(start: seq<Byte>, dst: seq<Byte>)
    ensures start[0..] == start && start[..0] + dst[0..] == dst
  {
  }

  /** Taking k more of the first n bytes. */
  lemma {:induction false} Taken(start: seq<Byte>, bytes: seq<Byte>, done: nat, n: nat, k: nat)
    requires done + k <= n <= |bytes|
    ensures start + bytes[..done] + bytes[done..n][..k] == start + bytes[..done + k]
  {
    assert bytes[..done] + bytes[done..n][..k] == bytes[..done + k];
  }

  /** The free stretch at the write position: as long as the code computes, and never more than is free. */
  lemma {:induction false} ChunkFits(capacity: int, size: int, writePos: int, n: int)
    requires 0 <= size < capacity && 0 <= writePos < capacity && 0 < n
    requires var readPos := Oldest(capacity, size, writePos);
      n <= if readPos <= writePos then capacity - writePos else readPos - writePos
    ensures size + n <= capacity && writePos + n <= capacity
    ensures var next := if writePos + n < capacity then writePos + n else 0;
      Oldest(capacity, size + n, next) == Oldest(capacity, size, writePos)
    ensures var end := Oldest(capacity, size, writePos) + size;
      writePos == if end < capacity then end else end - capacity
  {
  }

  lemma {:induction false} ChunkAppended(a: seq<Byte>, b: seq<Byte>, size: nat, writePos: nat, chunk: seq<Byte>)
    requires |b| == |a| && size < |a| && writePos < |a| && chunk != []
    requires var readPos := Oldest(|a|, size, writePos);
      |chunk| <= if readPos <= writePos then |a| - writePos else readPos - writePos
    requires writePos + |chunk| <= |a| && b == a[..writePos] + chunk + a[writePos + |chunk|..]
    ensures var next := if writePos + |chunk| < |a| then writePos + |chunk| else 0;
      && size + |chunk| <= |a|
      && Ring(b, Oldest(|a|, size + |chunk|, next), size + |chunk|) == Ring(a, Oldest(|a|, size, writePos), size) + chunk
  {
    ChunkFits(|a|, size, writePos, |chunk|);
    RingAppend(a, b, Oldest(|a|, size, writePos), size, chunk, writePos);
  }
}
