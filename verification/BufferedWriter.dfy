/**
 The writer that buffers bytes in a ring and drains it into a descriptor.  The descriptor answers each write
 by a script: it takes some of the bytes, takes none, asks to be called again, or fails.  A claim about every
 script is a claim about every behaviour of the operating system.
 */
module BufferedWriterObject {
  import opened Common
  import opened RingBufferObject

  lemma PrefixStep(before: seq<byte>, data: seq<byte>, done: nat, n: nat)
    requires done + n <= |data|
    ensures (before + data[..done]) + data[done..][..n] == before + data[..done + n]
  {
    assert data[..done] + data[done..][..n] == data[..done + n];
  }

  lemma Moved(sent: seq<byte>, queued: seq<byte>, stretch: nat, n: nat)
    requires n <= stretch <= |queued|
    ensures (sent + queued[..stretch][..n]) + queued[n..] == sent + queued
    ensures n == 0 ==> sent + queued[..stretch][..n] == sent
  {
    assert queued == queued[..stretch][..n] + queued[n..];
  }

  datatype Answer = Takes(count: nat) | TryAgain | Fails

  /** The first answer that settles an offer: the number of bytes the descriptor is ready to take, or a failure. */
  function Settled(answers: seq<Answer>): Option<nat> {
    if answers == [] || answers[0].Fails? then None
    else if answers[0].TryAgain? || answers[0].count == 0 then Settled(answers[1..])
    else Some(answers[0].count)
  }

  class Descriptor {
    var answers: seq<Answer>
    var sent: seq<byte>

    // Whether any write has failed.
    ghost var failed: bool

    constructor (answers: seq<Answer>)
      ensures this.answers == answers && sent == [] && !failed
    {
      this.answers, sent, failed := answers, [], false;
    }

    /** `::write`; `again` stands for EAGAIN and EINTR.  Past its script the descriptor fails. */
    method Write(data: seq<byte>) returns (n: int, again: bool)
      modifies this
      ensures old(answers) == [] ==> n == -1 && !again && answers == []
      ensures old(answers) != [] ==> answers == old(answers)[1..]
      ensures old(answers) != [] && old(answers)[0].Takes? ==> n == Min(old(answers)[0].count, |data|) && !again
      ensures old(answers) != [] && !old(answers)[0].Takes? ==> n == -1 && (again <==> old(answers)[0].TryAgain?)
      ensures sent == old(sent) + data[..if n > 0 then n else 0]
      ensures failed == (old(failed) || (n < 0 && !again))
    {
      if answers == [] {
        failed := true;
        return -1, false;
      }
      var answer := answers[0];
      answers := answers[1..];
      match answer
      case Takes(count) =>
        n, again := Min(count, |data|), false;
        sent := sent + data[..n];
      case TryAgain => n, again := -1, true;
      case Fails =>
        n, again := -1, false;
        failed := true;
    }
  }

  class BufferedWriter {
    var fd: int
    const buffer: RingBuffer
    const os: Descriptor

    // Every byte that a call has accepted so far, in order.
    ghost var accepted: seq<byte>

    ghost predicate Valid()
      reads this, buffer, buffer.ring, os
    {
      buffer.Valid() && os.sent + buffer.Contents() == accepted
    }

    constructor (fd: int, size: nat, os: Descriptor)
      ensures Valid() && this.fd == fd && this.os == os && buffer.Capacity() == size
      ensures accepted == os.sent && fresh(buffer) && fresh(buffer.ring)
    {
      this.fd, this.os := fd, os;
      buffer := new RingBuffer(size);
      accepted := os.sent;
    }

    /** The inner loop of the drain: offers one stretch until the descriptor takes some of it or fails. */
    method OfferStretch(chunk: seq<byte>) returns (rc: Rc, n: int)
      requires chunk != []
      modifies os
      ensures rc == if Settled(old(os.answers)).Some? then Success else IoErrWrite
      ensures n == if rc.Success? then Min(Settled(old(os.answers)).value, |chunk|) else 0
      ensures rc.Success? ==> n > 0
      ensures os.sent == old(os.sent) + chunk[..n] && os.failed == (old(os.failed) || rc.IoErrWrite?)
    {
      n := 0;
      while n == 0
        invariant 0 <= n <= |chunk|
        invariant n == 0 ==> Settled(os.answers) == Settled(old(os.answers))
        invariant n > 0 ==> Settled(old(os.answers)).Some? && n == Min(Settled(old(os.answers)).value, |chunk|)
        invariant os.sent == old(os.sent) + chunk[..n] && os.failed == old(os.failed)
        decreases |os.answers|, if n == 0 then 1 else 0
      {
        var again;
        n, again := os.Write(chunk);
        if n < 0 {
          n := 0;
          if again {
            continue;
          } else {
            return IoErrWrite, 0;
          }
        }
      }
      rc := Success;
    }

    /** Sends stretch after stretch until enough is sent; `last` is the size of the last stretch, without which less
        than `size` was sent. */
    method FlushInternal(size: int) returns (rc: Rc, ghost last: int)
      requires Valid()
      modifies os, buffer`dataSize
      ensures Valid()
      ensures rc.InvalidArgument? <==> fd < 0
      ensures rc.Success? ==> buffer.Size() == 0 || buffer.Size() <= old(buffer.Size()) - size
      ensures 0 <= last && buffer.Size() + last <= old(buffer.Size())
      ensures buffer.Size() < old(buffer.Size()) ==> old(buffer.Size()) - buffer.Size() - last < size
      ensures os.failed == (old(os.failed) || rc.IoErrWrite?) && (size <= 0 ==> !rc.IoErrWrite?)
    {
      last := 0;
      if fd < 0 {
        return InvalidArgument, 0;
      }
      rc := Success;
      var writeSize := 0;
      while rc == Success && buffer.Size() > 0 && size > writeSize
        invariant Valid() && rc == Success && os.failed == old(os.failed)
        invariant buffer.Size() == old(buffer.Size()) - writeSize && 0 <= last <= writeSize
        invariant writeSize > 0 ==> writeSize - last < size
        decreases buffer.Size()
      {
        var n;
        rc, n := DrainOnce();
        if rc != Success {
          return;
        }
        writeSize := writeSize + n;
        last := n;
      }
    }

    method DrainOnce() returns (rc: Rc, n: int)
      requires Valid() && buffer.Size() > 0
      modifies os, buffer`dataSize
      ensures Valid()
      ensures rc == if Settled(old(os.answers)).Some? then Success else IoErrWrite
      ensures (n == 0 <==> !rc.Success?) && os.failed == (old(os.failed) || rc.IoErrWrite?)
      ensures buffer.Size() == old(buffer.Size()) - n && n >= 0
    {
      var start, readSize := buffer.Buffer();
      var chunk := buffer.ring[start..start + readSize];
      ghost var queued, sent := buffer.Contents(), os.sent;
      rc, n := OfferStretch(chunk);
      Moved(sent, queued, readSize, n);
      if rc == Success {
        rc := buffer.Forward(n);
      }
    }

    method Write(data: seq<byte>, size: int) returns (rc: Rc, writeSize: int)
      requires Valid() && size <= |data|
      modifies this`accepted, os, buffer, buffer.ring
      ensures Valid()
      ensures (rc.InvalidArgument? <==> fd < 0 || size < 0) && os.failed == (old(os.failed) || rc.IoErrWrite?)
      ensures 0 <= writeSize && (writeSize > 0 ==> writeSize <= size)
      ensures accepted == old(accepted) + data[..writeSize]
      ensures rc.Success? && size > 0 ==> (writeSize > 0 <==> buffer.Capacity() > 0)
      ensures fd >= 0 && size >= 0 && old(buffer.Remain()) > 0 ==>
                writeSize == Min(size, old(buffer.Remain())) && os.answers == old(os.answers)
      ensures rc.Success? && old(buffer.Remain()) == 0 ==> writeSize == Min(size, buffer.Capacity())
      ensures !rc.Success? ==> writeSize == 0
    {
      if fd < 0 {
        return InvalidArgument, 0;
      }
      if buffer.Remain() == 0 {
        ghost var last;
        rc, last := FlushInternal(size);
        if rc != Success {
          return rc, 0;
        }
      }
      ghost var queued := buffer.Contents();
      rc, writeSize := buffer.Write(data, size);
      Assoc(os.sent, queued, data[..writeSize], buffer.Contents());
      accepted := accepted + data[..writeSize];
    }

    /** `Write` on a ring that has room for at least one byte. */
    method WriteSome(data: seq<byte>, size: int) returns (rc: Rc, writeSize: int)
      requires Valid() && fd >= 0 && 0 < size <= |data| && buffer.Capacity() > 0
      modifies this`accepted, os, buffer, buffer.ring
      ensures Valid() && !rc.InvalidArgument? && 0 <= writeSize <= size && (rc.Success? ==> writeSize > 0)
      ensures accepted == old(accepted) + data[..writeSize] && os.failed == (old(os.failed) || rc.IoErrWrite?)
    {
      rc, writeSize := Write(data, size);
    }

    /** Accepts everything or fails; what it accepted before failing is a prefix.  With a ring of capacity zero
        `Write` accepts nothing and the loop of the source never ends, so a non-empty ring is demanded. */
    method WriteN(data: seq<byte>, size: int) returns (rc: Rc, ghost taken: int)
      requires Valid() && size <= |data| && buffer.Capacity() > 0
      modifies this`accepted, os, buffer, buffer.ring
      ensures Valid()
      ensures (rc.InvalidArgument? <==> fd < 0) && os.failed == (old(os.failed) || rc.IoErrWrite?)
      ensures 0 <= taken <= |data| && accepted == old(accepted) + data[..taken]
      ensures rc.Success? ==> taken == if size >= 0 then size else 0
    {
      taken := 0;
      if fd < 0 {
        return InvalidArgument, taken;
      }
      var writeSize := 0;
      ghost var base := accepted;
      rc := Success;
      while writeSize < size
        invariant Valid() && rc.Success? && 0 <= writeSize && (writeSize <= size || size < 0)
        invariant taken == writeSize && (size < 0 ==> writeSize == 0)
        invariant accepted == base + data[..writeSize] && os.failed == old(os.failed)
        decreases size - writeSize
      {
        var tmp;
        rc, tmp := WriteSome(data[writeSize..], size - writeSize);
        PrefixStep(base, data, writeSize, tmp);
        taken := writeSize + tmp;
        if rc != Success {
          return;
        }
        writeSize := writeSize + tmp;
      }
    }

    method Flush() returns (rc: Rc)
      requires Valid()
      modifies os, buffer`dataSize
      ensures Valid() && os.failed == (old(os.failed) || rc.IoErrWrite?)
      ensures rc.InvalidArgument? <==> fd < 0
      ensures rc.Success? ==> buffer.Contents() == [] && os.sent == accepted
      ensures fd >= 0 && old(buffer.Size()) == 0 ==> rc.Success? && os.answers == old(os.answers)
    {
      if fd < 0 {
        return InvalidArgument;
      }
      rc := Success;
      while rc == Success && buffer.Size() > 0
        invariant Valid() && !rc.InvalidArgument? && os.failed == (old(os.failed) || rc.IoErrWrite?)
        invariant old(buffer.Size()) == 0 ==> rc.Success? && os.answers == old(os.answers) && buffer.Size() == 0
        decreases buffer.Size(), rc.Success?
      {
        ghost var last;
        rc, last := FlushInternal(buffer.Size());
      }
      assert buffer.Size() == 0 ==> buffer.Contents() == [];
    }

    /** A closed writer has delivered everything; a close that fails leaves the writer open. */
    method Close() returns (rc: Rc)
      requires Valid()
      modifies this`fd, os, buffer`dataSize
      ensures Valid() && !rc.InvalidArgument? && os.failed == (old(os.failed) || rc.IoErrWrite?)
      ensures old(fd) < 0 ==> rc.Success? && fd == old(fd) && os.sent == old(os.sent)
      ensures old(fd) >= 0 ==> fd == if rc.Success? then -1 else old(fd)
      ensures old(fd) >= 0 && rc.Success? ==> os.sent == accepted
    {
      if fd < 0 {
        return Success;
      }
      rc := Flush();
      if rc != Success {
        return rc;
      }
      fd := -1;
    }
  }
}
