/** The bytes that a ring of storage holds from a start place on, across the end of the storage. */
module RingSpec {
  import opened Common

  /** `pos % capacity`, for a position less than one lap past the end. */
  function Wrap(pos: int, capacity: int): int {
    if pos >= capacity then pos - capacity else pos
  }

  lemma WrapIsMod(pos: int, capacity: int)
    requires capacity > 0 && 0 <= pos < 2 * capacity
    ensures pos % capacity == Wrap(pos, capacity)
  {
    if pos >= capacity {
      assert pos == 1 * capacity + (pos - capacity);
    }
  }

  /** Moving the write position with the size leaves the read position where it is. */
  lemma ReadPosStays(writePos: int, size: int, n: int, capacity: int)
    requires 0 <= writePos < capacity && 0 <= size && 0 <= n && size + n <= capacity && writePos + n <= capacity
    ensures var next := (writePos + n) % capacity;
            && 0 <= next < capacity
            && Wrap(next - (size + n) + capacity, capacity) == Wrap(writePos - size + capacity, capacity)
  {
    WrapIsMod(writePos + n, capacity);
  }

  function Window(ring: seq<byte>, start: int, len: int): (w: seq<byte>)
    requires 0 <= len <= |ring| && (0 <= start < |ring| || (start == 0 && len == 0))
    ensures |w| == len
  {
    if start + len <= |ring| then ring[start..start + len] else ring[start..] + ring[..start + len - |ring|]
  }

  function Overwrite(ring: seq<byte>, at: nat, chunk: seq<byte>): (r: seq<byte>)
    requires at + |chunk| <= |ring|
    ensures |r| == |ring|
  {
    ring[..at] + chunk + ring[at + |chunk|..]
  }

  lemma WindowAt(ring: seq<byte>, start: int, len: int, i: int)
    requires 0 <= len <= |ring| && 0 <= start < |ring| && 0 <= i < len
    ensures Window(ring, start, len)[i] == ring[Wrap(start + i, |ring|)]
  {
  }

  /** Copying a chunk just behind the window extends the window by the chunk. */
  lemma WindowAppend(ring: seq<byte>, start: int, len: int, chunk: seq<byte>)
    requires 0 <= len < |ring| && 0 <= start < |ring| && len + |chunk| <= |ring|
    requires Wrap(start + len, |ring|) + |chunk| <= |ring|
    ensures Window(Overwrite(ring, Wrap(start + len, |ring|), chunk), start, len + |chunk|)
         == Window(ring, start, len) + chunk
  {
    var wp := Wrap(start + len, |ring|);
    var ring' := Overwrite(ring, wp, chunk);
    var w, w' := Window(ring, start, len), Window(ring', start, len + |chunk|);
    forall i | 0 <= i < len + |chunk| ensures w'[i] == (w + chunk)[i] {
      WindowAt(ring', start, len + |chunk|, i);
      if i < len {
        WindowAt(ring, start, len, i);
      }
    }
  }

  /** Moving the start forward drops bytes from the front of the window. */
  lemma WindowDrop(ring: seq<byte>, start: int, len: int, n: nat)
    requires 0 <= len <= |ring| && 0 <= start < |ring| && n <= len
    ensures Window(ring, Wrap(start + n, |ring|), len - n) == Window(ring, start, len)[n..]
  {
    var w, w' := Window(ring, start, len), Window(ring, Wrap(start + n, |ring|), len - n);
    forall i | 0 <= i < len - n ensures w'[i] == w[n + i] {
      WindowAt(ring, Wrap(start + n, |ring|), len - n, i);
      WindowAt(ring, start, len, n + i);
    }
  }
}

/** The fixed-size byte queue in front of a socket. */
module RingBufferObject {
  import opened Common
  import opened RingSpec

  function Min(a: int, b: int): (r: int)
    ensures r <= a && r <= b && (r == a || r == b)
  {
    if a <= b then a else b
  }

  lemma Assoc(a: seq<byte>, b: seq<byte>, c: seq<byte>, bc: seq<byte>)
    requires bc == b + c
    ensures (a + b) + c == a + bc
  {
  }

  /** A prefix of the first stretch is a prefix of the queue. */
  lemma FrontPiece(ring: seq<byte>, start: nat, len: nat, n: nat, queued: seq<byte>)
    requires start + len <= |ring| && n <= len <= |queued| && ring[start..start + len] == queued[..len]
    ensures ring[start..start + n] == queued[..n] && queued[..n] + queued[n..] == queued
  {
    assert ring[start..start + n] == ring[start..start + len][..n];
  }

  /** memcpy into the ring. */
  method CopyInto(ring: array<byte>, at: nat, chunk: seq<byte>)
    requires at + |chunk| <= ring.Length
    modifies ring
    ensures ring[..] == Overwrite(old(ring[..]), at, chunk)
  {
    for i := 0 to |chunk|
      invariant ring[..at] == old(ring[..at]) && ring[at + |chunk|..] == old(ring[at + |chunk|..])
      invariant ring[at..at + i] == chunk[..i]
    {
      ring[at + i] := chunk[i];
    }
    assert ring[..] == ring[..at] + ring[at..at + |chunk|] + ring[at + |chunk|..];
  }

  /** The same behind a window of the ring, which it extends. */
  method CopyBehind(ring: array<byte>, at: nat, chunk: seq<byte>, ghost start: int, ghost len: int, ghost w: seq<byte>)
    requires 0 <= len < ring.Length && 0 <= start < ring.Length && len + |chunk| <= ring.Length
    requires at == Wrap(start + len, ring.Length) && at + |chunk| <= ring.Length && w == Window(ring[..], start, len)
    modifies ring
    ensures Window(ring[..], start, len + |chunk|) == w + chunk
  {
    WindowAppend(ring[..], start, len, chunk);
    CopyInto(ring, at, chunk);
  }

  class RingBuffer {
    const ring: array<byte>
    var dataSize: int
    var writePos: int

    ghost predicate Valid()
      reads this
    {
      && 0 <= dataSize <= ring.Length
      && (if ring.Length == 0 then writePos == 0 else 0 <= writePos < ring.Length)
    }

    function Capacity(): int {
      ring.Length
    }

    function Size(): int
      reads this
    {
      dataSize
    }

    function Remain(): int
      reads this
    {
      Capacity() - Size()
    }

    function ReadPos(): (p: int)
      requires Valid() && Capacity() > 0
      reads this
      ensures p == Wrap(writePos - dataSize + Capacity(), Capacity()) && 0 <= p < Capacity()
      ensures Wrap(p + dataSize, Capacity()) == writePos
    {
      WrapIsMod(writePos - dataSize + Capacity(), Capacity());
      (writePos - dataSize + Capacity()) % Capacity()
    }

    /** The queued bytes, oldest first. */
    ghost function Contents(): (s: seq<byte>)
      requires Valid()
      reads this, ring
      ensures |s| == Size()
    {
      if Capacity() == 0 then [] else Window(ring[..], ReadPos(), dataSize)
    }

    constructor (size: nat)
      ensures Valid() && Capacity() == size && Contents() == [] && fresh(ring)
    {
      ring := new byte[size];
      dataSize, writePos := 0, 0;
    }

    /** The stretch of queued bytes that lies in one piece in memory, without taking it out. */
    method Buffer() returns (start: int, readSize: int)
      requires Valid()
      ensures 0 <= start && 0 <= readSize <= Size() && start + readSize <= Capacity()
      ensures ring[start..start + readSize] == Contents()[..readSize]
      ensures readSize == 0 <==> Contents() == []
    {
      if Size() == 0 {
        return 0, 0;
      }
      start := ReadPos();
      if start < writePos {
        readSize := writePos - start;
      } else {
        readSize := Capacity() - start;
      }
    }

    method Forward(size: int) returns (rc: Rc)
      requires Valid()
      modifies this`dataSize
      ensures Valid()
      ensures rc == if 0 < size <= old(Size()) then Success else InvalidArgument
      ensures Contents() == if rc.Success? then old(Contents())[size..] else old(Contents())
    {
      if size <= 0 {
        return InvalidArgument;
      }
      if size > Size() {
        return InvalidArgument;
      }
      WindowDrop(ring[..], ReadPos(), dataSize, size);
      dataSize := dataSize - size;
      return Success;
    }

    /** One pass of the loop of `read`: takes out at most `limit` bytes that lie in one piece. */
    method TakeOnce(limit: int) returns (rc: Rc, chunk: seq<byte>)
      requires Valid() && Size() > 0 && limit > 0
      modifies this`dataSize
      ensures Valid() && rc == Success && 0 < |chunk| <= limit
      ensures chunk + Contents() == old(Contents()) && Size() == old(Size()) - |chunk|
    {
      var start, readSize := Buffer();
      var copySize := Min(limit, readSize);
      chunk := ring[..][start..start + copySize];
      ghost var queued := Contents();
      FrontPiece(ring[..], start, readSize, copySize, queued);
      rc := Forward(copySize);
    }

    /** Takes the longest available prefix of at most `size` bytes out. */
    method Read(size: int) returns (rc: Rc, data: seq<byte>)
      requires Valid()
      modifies this`dataSize
      ensures Valid()
      ensures rc == if size < 0 then InvalidArgument else Success
      ensures |data| == if size < 0 then 0 else Min(size, old(Size()))
      ensures data + Contents() == old(Contents())
    {
      data := [];
      if size < 0 {
        return InvalidArgument, data;
      }
      rc := Success;
      while rc == Success && |data| < size && Size() > 0
        invariant Valid() && rc == Success
        invariant |data| <= size && Size() == old(Size()) - |data|
        invariant data + Contents() == old(Contents())
        decreases Size()
      {
        var chunk;
        ghost var queued := Contents();
        rc, chunk := TakeOnce(size - |data|);
        Assoc(data, chunk, Contents(), queued);
        data := data + chunk;
      }
    }

    /** Queues the longest prefix of the first `size` bytes of `data` that fits. */
    method Write(data: seq<byte>, size: int) returns (rc: Rc, writeSize: int)
      requires Valid() && size <= |data|
      modifies this, ring
      ensures Valid()
      ensures rc == if size < 0 then InvalidArgument else Success
      ensures writeSize == if size < 0 then 0 else Min(size, old(Remain()))
      ensures Contents() == old(Contents()) + data[..writeSize]
    {
      writeSize := 0;
      if size < 0 {
        return InvalidArgument, 0;
      }
      rc := Success;
      ghost var queued := Contents();
      while rc == Success && writeSize < size && Remain() > 0
        invariant Valid() && rc == Success
        invariant 0 <= writeSize <= size && Size() == old(Size()) + writeSize
        invariant Contents() == queued + data[..writeSize]
        decreases Remain()
      {
        var rest := data[writeSize..size];
        var copySize := CopyOnce(rest);
        Assoc(queued, data[..writeSize], rest[..copySize], data[..writeSize + copySize]);
        writeSize := writeSize + copySize;
      }
    }

    method Advance(n: int)
      requires Valid() && 0 < n <= Remain() && writePos + n <= Capacity()
      modifies this`writePos, this`dataSize
      ensures Valid() && dataSize == old(dataSize) + n && ReadPos() == old(ReadPos())
    {
      ReadPosStays(writePos, dataSize, n, Capacity());
      writePos := (writePos + n) % Capacity();
      dataSize := dataSize + n;
    }

    /** The bytes go behind those that are queued; they lie in one piece. */
    method PutChunk(chunk: seq<byte>)
      requires Valid() && chunk != [] && |chunk| <= Remain() && writePos + |chunk| <= Capacity()
      modifies this, ring
      ensures Valid() && Size() == old(Size()) + |chunk| && Contents() == old(Contents()) + chunk
    {
      CopyBehind(ring, writePos, chunk, ReadPos(), dataSize, Contents());
      Advance(|chunk|);
    }

    /** One pass of the loop of `write`: fills the free stretch behind the write position. */
    method CopyOnce(rest: seq<byte>) returns (copySize: int)
      requires Valid() && Remain() > 0 && rest != []
      modifies this, ring
      ensures Valid() && 0 < copySize <= |rest|
      ensures Size() == old(Size()) + copySize
      ensures Contents() == old(Contents()) + rest[..copySize]
    {
      var readPos := ReadPos();
      var tmpBufSize := if readPos <= writePos then Capacity() - writePos else readPos - writePos;
      copySize := Min(|rest|, tmpBufSize);
      PutChunk(rest[..copySize]);
    }
  }
}
