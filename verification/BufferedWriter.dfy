/** The buffered writer of a connection, over a descriptor that may write short, be interrupted or fail. */
module BufferedWriter {
  import opened Common
  import opened RingBuffer

  /** What the operating system does with one call of write(2). */
  datatype Answer = Wrote(n: nat) | Again | Interrupted | Failed

  /** A call that gets the retry loop on: some bytes written, or an error that is not a retry. */
  predicate IsUseful(a: Answer) {
    a.Failed? || (a.Wrote? && a.n > 0)
  }

  /** The file behind the descriptor. The answers are the environment's, fixed but unknown. */
  class Descriptor {
    const answers: nat -> Answer
    var calls: nat
    var sent: seq<Byte>

    constructor (answers: nat -> Answer)
      ensures this.answers == answers && calls == 0 && sent == []
    {
      this.answers := answers;
      calls := 0;
      sent := [];
    }

    /** Retries do not go on for ever: from any call on there is one that gets on. */
    ghost predicate MakesProgress() {
      forall i: nat :: HasUsefulFrom(i)
    }

    ghost predicate HasUsefulFrom(i: nat) {
      exists j: nat :: i <= j && IsUseful(answers(j))
    }

    /** write(2): a prefix of the bytes goes out, at most as many as the answer says. */
    method Write(bytes: seq<Byte>) returns (n: int, retry: bool)
      modifies this
      ensures calls == old(calls) + 1
      ensures match answers(old(calls))
        case Wrote(k) => n == Min(k, |bytes|)
        case Again => n == -1 && retry
        case Interrupted => n == -1 && retry
        case Failed => n == -1 && !retry
      ensures sent == if n > 0 then old(sent) + bytes[..n] else old(sent)
    {
      var a := answers(calls);
      calls := calls + 1;
      retry := a.Again? || a.Interrupted?;
      if a.Wrote? {
        n := Min(a.n, |bytes|);
        sent := sent + bytes[..n];
      } else {
        n := -1;
      }
    }
  }

  /** Bytes that leave the front of the buffer and join the end of what was sent. */
  lemma {:induction false} BytesMove(sent: seq<Byte>, contents: seq<Byte>, k: nat, n: nat)
    requires n <= k <= |contents|
    ensures sent + contents[..k][..n] + contents[n..] == sent + contents
  {
    assert contents[..k][..n] + contents[n..] == contents;
  }

  /** Taking n more of the bytes after the first k. */
  lemma {:induction false} BytesTaken(was: seq<Byte>, bytes: seq<Byte>, k: nat, n: nat)
    requires k + n <= |bytes|
    ensures was + bytes[..k] + bytes[k..][..n] == was + bytes[..k + n]
  {
    assert bytes[..k] + bytes[k..][..n] == bytes[..k + n];
  }

  class Writer {
    var fd: int
    const file: Descriptor
    const buffer: RingBuffer

    ghost predicate Valid()
      reads this, buffer
    {
      buffer.Valid()
    }

    /** Every byte taken from callers, in order: what was sent, then what is still buffered. */
    ghost function Accepted(): seq<Byte>
      requires Valid()
      reads this, file, buffer, buffer.data
    {
      file.sent + buffer.Contents()
    }

    /** No accepted byte is lost or taken back since a moment with these values. */
    ghost predicate HasKept(accepted: seq<Byte>, sent: seq<Byte>, calls: nat)
      reads this, file, buffer, buffer.data
    {
      Valid() && Accepted() == accepted && sent <= file.sent && calls <= file.calls
    }

    /** A call ends with IOERR_WRITE exactly if the last thing it did was a write(2) that failed. */
    ghost predicate EndedInFailure(callsBefore: nat)
      reads file
    {
      callsBefore < file.calls && file.answers(file.calls - 1).Failed?
    }

    constructor (fd: int, file: Descriptor, size: nat)
      ensures Valid() && this.fd == fd && this.file == file && Accepted() == file.sent
      ensures buffer.data.Length == size && fresh(buffer) && fresh(buffer.data)
    {
      this.fd := fd;
      this.file := file;
      buffer := new RingBuffer(size);
    }

    /** The retry loop around write(2): ends with at least one byte sent, or with an error. */
    method SendSome(bytes: seq<Byte>) returns (n: int)
      requires Valid() && file.MakesProgress() && bytes != []
      modifies file
      ensures n == -1 || 0 < n <= |bytes|
      ensures file.sent == old(file.sent) + if n > 0 then bytes[..n] else []
      ensures file.calls > old(file.calls) && (n == -1) == EndedInFailure(old(file.calls))
    {
      n := 0;
      assert file.HasUsefulFrom(file.calls);
      ghost var useful: nat :| file.calls <= useful && IsUseful(file.answers(useful));
      while n == 0
        invariant 0 <= n <= |bytes|
        invariant n == 0 ==> file.calls <= useful && file.sent == old(file.sent)
        invariant n > 0 ==> file.sent == old(file.sent) + bytes[..n]
        invariant file.calls >= old(file.calls)
        invariant n > 0 ==> file.calls > old(file.calls) && !file.answers(file.calls - 1).Failed?
        decreases useful - file.calls, n == 0
      {
        var retry;
        n, retry := file.Write(bytes);
        if n < 0 {
          if retry {
            n := 0;
            continue;
          } else {
            return -1;
          }
        }
      }
    }

    /** Sends buffered bytes until the buffer is empty or size bytes went out; no byte is lost or reordered. */
    method FlushInternal(size: int) returns (rc: RC)
      requires Valid() && file.MakesProgress()
      modifies file, buffer`size
      ensures Valid() && Accepted() == old(Accepted())
      ensures fd < 0 ==> rc == INVALID_ARGUMENT && file.sent == old(file.sent)
      ensures fd >= 0 ==> rc == if EndedInFailure(old(file.calls)) then IOERR_WRITE else SUCCESS
      ensures old(file.sent) <= file.sent && old(file.calls) <= file.calls
      ensures size <= 0 || old(buffer.size) == 0 ==> file.calls == old(file.calls)
      ensures old(buffer.size) == 0 ==> file.sent == old(file.sent)
      ensures old(buffer.size) > 0 && size > 0 && rc == SUCCESS ==> buffer.size < old(buffer.size)
      ensures rc == SUCCESS ==> buffer.size == 0 || |file.sent| - |old(file.sent)| >= size
    {
      if fd < 0 {
        return INVALID_ARGUMENT;
      }
      var writeSize := 0;
      while buffer.size > 0 && size > writeSize
        invariant Valid() && Accepted() == old(Accepted())
        invariant buffer.size == old(buffer.size) - writeSize && 0 <= writeSize
        invariant file.calls == old(file.calls) || (0 < size && old(buffer.size) > 0)
        invariant writeSize == |file.sent| - |old(file.sent)| && old(file.sent) <= file.sent
        invariant old(buffer.size) == 0 ==> file.sent == old(file.sent)
        invariant old(file.calls) <= file.calls && !EndedInFailure(old(file.calls))
        decreases buffer.size
      {
        var n := SendStretch();
        if n < 0 {
          return IOERR_WRITE;
        }
        writeSize := writeSize + n;
      }
      rc := SUCCESS;
    }

    /** One round of flush_internal: part of one stretch goes out and leaves the buffer. */
    method SendStretch() returns (n: int)
      requires Valid() && file.MakesProgress() && buffer.size > 0
      modifies file, buffer`size
      ensures Valid() && Accepted() == old(Accepted())
      ensures file.calls > old(file.calls) && (n == -1) == EndedInFailure(old(file.calls))
      ensures n == -1 || 0 < n
      ensures buffer.size == old(buffer.size) - (if n > 0 then n else 0)
      ensures old(file.sent) <= file.sent && |file.sent| == |old(file.sent)| + if n > 0 then n else 0
    {
      var stretch := FirstStretch();
      n := SendSome(stretch);
      if n > 0 {
        DropSent(n, old(file.sent), stretch);
      }
    }

    /** The bytes handed to write(2): the front of the buffer's contents. */
    method FirstStretch() returns (stretch: seq<Byte>)
      requires Valid() && buffer.size > 0
      ensures 0 < |stretch| <= buffer.size && stretch == buffer.Contents()[..|stretch|]
    {
      var start, readSize := buffer.Buffer();
      stretch := buffer.data[start..start + readSize];
    }

    /** The bytes that went out leave the buffer. */
    method DropSent(n: int, ghost sent: seq<Byte>, ghost stretch: seq<Byte>)
      requires Valid() && 0 < n <= |stretch| <= buffer.size && stretch == buffer.Contents()[..|stretch|]
      requires file.sent == sent + stretch[..n]
      modifies buffer`size
      ensures Valid() && buffer.size == old(buffer.size) - n && Accepted() == sent + old(buffer.Contents())
    {
      BytesMove(sent, buffer.Contents(), |stretch|, n);
      var _ := buffer.Forward(n);
    }

    /** No call of write(2) was made and nothing was sent. */
    ghost predicate IsUntouched(calls: nat, sent: seq<Byte>)
      reads file
    {
      file.calls == calls && file.sent == sent
    }

    /** The first half of write: a full buffer is flushed. */
    method MakeRoom(size: int) returns (rc: RC)
      requires Valid() && file.MakesProgress() && fd >= 0
      modifies file, buffer`size
      ensures Valid() && Accepted() == old(Accepted())
      ensures old(file.calls) <= file.calls
      ensures rc == if EndedInFailure(old(file.calls)) then IOERR_WRITE else SUCCESS
      ensures size <= 0 ==> rc == SUCCESS
      ensures rc == SUCCESS && size > 0 ==> (buffer.Remain() == 0 <==> buffer.data.Length == 0)
      ensures buffer.data.Length == 0 ==> rc == SUCCESS && IsUntouched(old(file.calls), old(file.sent))
    {
      rc := SUCCESS;
      if buffer.Remain() == 0 {
        rc := FlushInternal(size);
      }
    }

    /** Takes as many bytes as fit once a full buffer was made room in; reports how many. */
    method Write(bytes: seq<Byte>, size: int, reported: int) returns (rc: RC, writeSize: int)
      requires Valid() && file.MakesProgress() && size <= |bytes|
      modifies file, buffer, buffer.data
      ensures Valid() && old(file.calls) <= file.calls
      ensures fd < 0 ==> rc == INVALID_ARGUMENT
      ensures fd >= 0 && size < 0 ==> rc == INVALID_ARGUMENT
      ensures fd >= 0 && size >= 0 ==> rc == if EndedInFailure(old(file.calls)) then IOERR_WRITE else SUCCESS
      ensures rc != SUCCESS ==> writeSize == reported && Accepted() == old(Accepted())
      ensures rc == SUCCESS ==> 0 <= writeSize <= size && HasTaken(old(Accepted()), bytes, writeSize)
      ensures rc == SUCCESS && size > 0 ==> (writeSize == 0 <==> buffer.data.Length == 0)
      ensures fd >= 0 && size >= 0 && buffer.data.Length == 0 ==> rc == SUCCESS && IsUntouched(old(file.calls), old(file.sent))
    {
      writeSize := reported;
      if fd < 0 {
        return INVALID_ARGUMENT, writeSize;
      }
      rc := MakeRoom(size);
      if rc != SUCCESS {
        return rc, writeSize;
      }
      rc, writeSize := BufferBytes(bytes, size, writeSize, Accepted());
    }

    /** The second half of write: what fits goes into the buffer. */
    method BufferBytes(bytes: seq<Byte>, size: int, reported: int, ghost accepted: seq<Byte>) returns (rc: RC, writeSize: int)
      requires Valid() && size <= |bytes| && Accepted() == accepted
      modifies buffer, buffer.data
      ensures Valid() && rc == if size < 0 then INVALID_ARGUMENT else SUCCESS
      ensures rc != SUCCESS ==> writeSize == reported && Accepted() == accepted
      ensures rc == SUCCESS ==> writeSize == Min(size, old(buffer.Remain())) && 0 <= writeSize <= |bytes|
      ensures rc == SUCCESS ==> HasTaken(accepted, bytes, writeSize)
    {
      ghost var contents := buffer.Contents();
      rc, writeSize := buffer.Write(bytes, size, reported);
      if rc == SUCCESS {
        assert file.sent + (contents + bytes[..writeSize]) == file.sent + contents + bytes[..writeSize];
      }
    }

    /** All the bytes are taken, or an error is reported and a prefix of them was. With no buffer at all it would not end. */
    method WriteN(bytes: seq<Byte>, size: int) returns (rc: RC, ghost taken: nat)
      requires Valid() && file.MakesProgress() && size <= |bytes|
      requires buffer.data.Length > 0 || size <= 0 || fd < 0
      modifies file, buffer, buffer.data
      ensures Valid() && old(file.calls) <= file.calls
      ensures fd < 0 ==> rc == INVALID_ARGUMENT && taken == 0
      ensures fd >= 0 ==> rc == if EndedInFailure(old(file.calls)) then IOERR_WRITE else SUCCESS
      ensures rc == SUCCESS ==> taken == if size > 0 then size else 0
      ensures taken <= |bytes| && Accepted() == old(Accepted()) + bytes[..taken]
    {
      taken := 0;
      if fd < 0 {
        return INVALID_ARGUMENT, 0;
      }
      assert Accepted() + bytes[..0] == Accepted();
      var n;
      rc, n := WriteLoop(bytes, size, Accepted());
      taken := n;
    }

    /** The loop of writen. */
    method WriteLoop(bytes: seq<Byte>, size: int, ghost accepted: seq<Byte>) returns (rc: RC, writeSize: nat)
      requires HasTaken(accepted, bytes, 0) && file.MakesProgress() && fd >= 0 && size <= |bytes|
      requires buffer.data.Length > 0 || size <= 0
      modifies file, buffer, buffer.data
      ensures HasTaken(accepted, bytes, writeSize) && old(file.calls) <= file.calls
      ensures rc == if EndedInFailure(old(file.calls)) then IOERR_WRITE else SUCCESS
      ensures rc == SUCCESS ==> writeSize == if size > 0 then size else 0
    {
      writeSize := 0;
      ghost var calls := file.calls;
      while writeSize < size
        invariant writeSize <= size || writeSize == 0
        invariant IsWriting(accepted, bytes, writeSize, calls)
        decreases size - writeSize
      {
        var n;
        rc, n := WriteNext(bytes, size, writeSize, accepted);
        if rc != SUCCESS {
          return rc, writeSize;
        }
        writeSize := writeSize + n;
      }
      return SUCCESS, writeSize;
    }

    /** The first k bytes were accepted after what had been. */
    ghost predicate HasTaken(accepted: seq<Byte>, bytes: seq<Byte>, k: nat)
      reads this, file, buffer, buffer.data
    {
      Valid() && k <= |bytes| && Accepted() == accepted + bytes[..k]
    }

    /** Between rounds of writen: so much is taken, and no call since then ended in a failure. */
    ghost predicate IsWriting(accepted: seq<Byte>, bytes: seq<Byte>, k: nat, calls: nat)
      reads this, file, buffer, buffer.data
    {
      HasTaken(accepted, bytes, k) && calls <= file.calls && !EndedInFailure(calls)
    }

    /** One round of writen, which has handed over the first writeSize bytes. */
    method WriteNext(bytes: seq<Byte>, size: int, writeSize: nat, ghost accepted: seq<Byte>) returns (rc: RC, n: int)
      requires HasTaken(accepted, bytes, writeSize)
      requires file.MakesProgress() && fd >= 0 && writeSize < size <= |bytes| && buffer.data.Length > 0
      modifies file, buffer, buffer.data
      ensures Valid() && old(file.calls) <= file.calls
      ensures rc == if EndedInFailure(old(file.calls)) then IOERR_WRITE else SUCCESS
      ensures rc == SUCCESS ==> 0 < n && writeSize + n <= size && HasTaken(accepted, bytes, writeSize + n)
      ensures rc != SUCCESS ==> HasTaken(accepted, bytes, writeSize)
    {
      n := 0;
      rc, n := Write(bytes[writeSize..], size - writeSize, n);
      if rc == SUCCESS {
        BytesTaken(accepted, bytes, writeSize, n);
      }
    }

    /**
     * The same round when the buffer has capacity 0: it succeeds, takes nothing and leaves everything as it was, so the
     * next round is the same again and writen goes on for ever.
     */
    method WriteNextUnbuffered(bytes: seq<Byte>, size: int, writeSize: nat, ghost accepted: seq<Byte>) returns (rc: RC, n: int)
      requires HasTaken(accepted, bytes, writeSize)
      requires file.MakesProgress() && fd >= 0 && writeSize < size <= |bytes| && buffer.data.Length == 0
      modifies file, buffer, buffer.data
      ensures rc == SUCCESS && n == 0 && HasTaken(accepted, bytes, writeSize)
      ensures IsUntouched(old(file.calls), old(file.sent)) && buffer.size == 0
    {
      n := 0;
      rc, n := Write(bytes[writeSize..], size - writeSize, n);
      BytesTaken(accepted, bytes, writeSize, 0);
    }

    /** Success means that everything accepted so far was sent. */
    method Flush() returns (rc: RC)
      requires Valid() && file.MakesProgress()
      modifies file, buffer`size
      ensures Valid() && Accepted() == old(Accepted()) && old(file.sent) <= file.sent
      ensures fd < 0 ==> rc == INVALID_ARGUMENT && file.sent == old(file.sent)
      ensures fd >= 0 ==> rc == if EndedInFailure(old(file.calls)) then IOERR_WRITE else SUCCESS
      ensures rc == SUCCESS ==> buffer.size == 0 && file.sent == old(Accepted())
    {
      if fd < 0 {
        return INVALID_ARGUMENT;
      }
      rc := SUCCESS;
      while rc == SUCCESS && buffer.size > 0
        invariant HasKept(old(Accepted()), old(file.sent), old(file.calls))
        invariant rc == if EndedInFailure(old(file.calls)) then IOERR_WRITE else SUCCESS
        decreases rc == SUCCESS, buffer.size
      {
        rc := FlushInternal(buffer.size);
      }
    }

    /** A closed writer has sent everything it accepted; a second close does nothing. */
    method Close() returns (rc: RC)
      requires Valid() && file.MakesProgress()
      modifies this`fd, file, buffer`size
      ensures Valid() && Accepted() == old(Accepted())
      ensures rc == SUCCESS && old(fd) >= 0 ==> fd == -1 && file.sent == old(Accepted())
      ensures rc != SUCCESS || old(fd) < 0 ==> fd == old(fd)
      ensures old(fd) < 0 ==> rc == SUCCESS && file.sent == old(file.sent)
      ensures old(fd) >= 0 ==> rc == if EndedInFailure(old(file.calls)) then IOERR_WRITE else SUCCESS
    {
      if fd < 0 {
        return SUCCESS;
      }
      rc := Flush();
      if rc != SUCCESS {
        return;
      }
      fd := -1;
    }
  }
}
