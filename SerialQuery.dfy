/** `GetSerial` (src/ConsoleApplication1/ConsoleApplication1.cpp), the native
    draft of the property query: a do-while loop that allocates a buffer with
    `LocalAlloc`, issues IOCTL_STORAGE_QUERY_PROPERTY, checks the
    descriptor's Version and Size, classifies the outcome as a Win32 error
    code, and frees the buffer before going round again or returning. */
module SerialQuery {
  import opened Win32
  import opened DotNet
  import opened AsciiStrings
  import opened StorageDescriptor
  import opened DiskIO

  /** The local heap as `LocalAlloc` and `LocalFree` see it: whether an
      allocation of a given size succeeds, and the blocks not yet freed. */
  class LocalHeap {
    const grants: uint32 -> bool
    var blocks: set<array<byte>>

    constructor (grants: uint32 -> bool)
      ensures this.grants == grants && blocks == {}
    {
      this.grants := grants;
      blocks := {};
    }

    /** `LocalAlloc(0, size)`: a new block, or null. */
    method LocalAlloc(size: uint32) returns (buf: array?<byte>)
      modifies this
      ensures buf != null <==> grants(size)
      ensures buf != null ==> fresh(buf) && buf.Length == size && blocks == old(blocks) + {buf}
      ensures buf == null ==> blocks == old(blocks)
    {
      if grants(size) {
        buf := new byte[size];
        blocks := blocks + {buf};
      } else {
        buf := null;
      }
    }

    /** `LocalFree(buf)`. */
    method LocalFree(buf: array<byte>)
      requires buf in blocks
      modifies this
      ensures blocks == old(blocks) - {buf}
    {
      blocks := blocks - {buf};
    }
  }

  /** What `GetSerial` returns, with the serial number it prints. */
  datatype SerialResult = SerialResult(code: uint32, serial: Option<string>)

  /** One pass of the loop: go round again at a size, or finish. */
  datatype Iteration = Retry(nextSize: uint32) | Done(result: SerialResult)

  /** One pass of the loop as written: `granted` says whether the allocation
      succeeded and `reply` how the control call answered. The loop goes
      round again whenever dwError is ERROR_MORE_DATA, which includes a
      failed call whose last error is ERROR_MORE_DATA; the size is then
      unchanged. */
  function SerialPassAsWritten(granted: bool, reply: IoReply, size: uint32): (it: Iteration)
    requires size >= SIZE_OF_DESCRIPTOR
    ensures it.Retry? ==> it.nextSize >= size
  {
    if !granted then Done(SerialResult(ERROR_NO_SYSTEM_RESOURCES, None))
    else match reply
      case IoFailed(lastError) =>
        if lastError == ERROR_MORE_DATA then Retry(size) else Done(SerialResult(lastError, None))
      case IoOk(written) =>
        var buf := Fit(written, size);
        var h := ReadHeader(buf);
        if h.version < SIZE_OF_DESCRIPTOR then Done(SerialResult(ERROR_GEN_FAILURE, None))
        else if h.size > size then Retry(h.size)
        else if h.serialNumberOffset == 0 then Done(SerialResult(ERROR_NO_DATA, None))
        else Done(SerialResult(NO_ERROR, Some(AsciiField(buf, h.serialNumberOffset).value)))
  }

  /** The loop's state after k passes from `size`, as written. */
  function AsWrittenAfter(grants: uint32 -> bool, ioctl: uint32 -> IoReply, size: uint32, k: nat): (it: Iteration)
    requires size >= SIZE_OF_DESCRIPTOR
    ensures it.Retry? ==> it.nextSize >= size
  {
    if k == 0 then Retry(size)
    else match AsWrittenAfter(grants, ioctl, size, k - 1)
      case Done(r) => Done(r)
      case Retry(s) => SerialPassAsWritten(grants(s), ioctl(s), s)
  }

  /** As written, a device whose control call keeps failing with
      ERROR_MORE_DATA keeps the loop at the initial size for ever. */
  lemma {:induction false} AsWrittenNeverEnds(k: nat)
    ensures AsWrittenAfter(_ => true, _ => IoFailed(ERROR_MORE_DATA), INITIAL_QUERY_SIZE, k)
            == Retry(INITIAL_QUERY_SIZE)
  {
    if k > 0 {
      AsWrittenNeverEnds(k - 1);
    }
  }

  /** One pass of the loop, with a failed control call ending the loop with
      its last error whatever that error is. */
  function SerialPass(granted: bool, reply: IoReply, size: uint32): (it: Iteration)
    requires size >= SIZE_OF_DESCRIPTOR
    ensures it.Retry? ==> it.nextSize > size
    ensures !granted ==> it == Done(SerialResult(ERROR_NO_SYSTEM_RESOURCES, None))
    ensures granted && reply.IoFailed? ==> it == Done(SerialResult(reply.lastError, None))
    ensures it.Done? && it.result.serial.Some? ==> it.result.code == NO_ERROR
  {
    if granted && reply.IoFailed? then Done(SerialResult(reply.lastError, None))
    else SerialPassAsWritten(granted, reply, size)
  }

  /** The correction changes the pass only for a failed call whose last
      error is ERROR_MORE_DATA. */
  lemma CorrectionOnlyAffectsMoreData(granted: bool, reply: IoReply, size: uint32)
    requires size >= SIZE_OF_DESCRIPTOR
    ensures SerialPass(granted, reply, size) != SerialPassAsWritten(granted, reply, size)
            <==> granted && reply == IoFailed(ERROR_MORE_DATA)
  {
  }

  /** With a successful call, the Version check comes first: a Version below
      sizeof(STORAGE_DEVICE_DESCRIPTOR) gives ERROR_GEN_FAILURE and no retry,
      whatever Size the reply declares. Otherwise a declared Size above the
      buffer is a retry at exactly that Size, and a Size that fits gives
      ERROR_NO_DATA for a zero SerialNumberOffset and the serial number at
      the offset for any other. */
  lemma SerialPassClassifies(reply: IoReply, size: uint32)
    requires size >= SIZE_OF_DESCRIPTOR && reply.IoOk?
    ensures var buf := Fit(reply.written, size);
      var h := ReadHeader(buf);
      var it := SerialPass(true, reply, size);
      && (h.version < SIZE_OF_DESCRIPTOR ==> it == Done(SerialResult(ERROR_GEN_FAILURE, None)))
      && (h.version >= SIZE_OF_DESCRIPTOR ==> (it.Retry? <==> h.size > size))
      && (it.Retry? ==> it.nextSize == h.size)
      && (h.version >= SIZE_OF_DESCRIPTOR && h.size <= size ==>
            it.Done? && (it.result.code == ERROR_NO_DATA <==> h.serialNumberOffset == 0))
      && (h.version >= SIZE_OF_DESCRIPTOR && h.size <= size && h.serialNumberOffset != 0 ==>
            it == Done(SerialResult(NO_ERROR, Some(AsciiField(buf, h.serialNumberOffset).value))))
      && (it.Done? && it.result.serial.Some? ==>
            && h.serialNumberOffset != 0
            && it.result.serial.value == AsciiField(buf, h.serialNumberOffset).value
            && forall i :: 0 <= i < |it.result.serial.value| ==> it.result.serial.value[i] != '\0')
  {
    var buf := Fit(reply.written, size);
    AsciiFieldBounds(buf, ReadHeader(buf).serialNumberOffset);
  }

  /** The loop from a buffer size on. */
  function SerialFrom(grants: uint32 -> bool, ioctl: uint32 -> IoReply, size: uint32): (run: Run<SerialResult>)
    requires size >= SIZE_OF_DESCRIPTOR
    ensures |run.sizes| >= 1 && run.sizes[0] == size
    ensures StrictlyIncreasing(run.sizes)
    ensures |run.sizes| <= 0x1_0000_0000 - size
    decreases 0x1_0000_0000 - size
  {
    match SerialPass(grants(size), ioctl(size), size)
    case Retry(next) =>
      var rest := SerialFrom(grants, ioctl, next);
      Run([size] + rest.sizes, rest.outcome)
    case Done(result) => Run([size], result)
  }

  /** Every pass but the last retries at the size the next pass uses, and the
      loop's result is that of its last pass. */
  lemma {:induction false} SerialRunSteps(grants: uint32 -> bool, ioctl: uint32 -> IoReply, size: uint32)
    requires size >= SIZE_OF_DESCRIPTOR
    ensures var run := SerialFrom(grants, ioctl, size);
      && (forall i :: 0 <= i < |run.sizes| - 1 ==>
            run.sizes[i] >= size
            && SerialPass(grants(run.sizes[i]), ioctl(run.sizes[i]), run.sizes[i]) == Retry(run.sizes[i + 1]))
      && var last := run.sizes[|run.sizes| - 1];
         SerialPass(grants(last), ioctl(last), last) == Done(run.outcome)
    decreases 0x1_0000_0000 - size
  {
    var run := SerialFrom(grants, ioctl, size);
    match SerialPass(grants(size), ioctl(size), size)
    case Retry(next) =>
      SerialRunSteps(grants, ioctl, next);
      var rest := SerialFrom(grants, ioctl, next);
      assert run.sizes == [size] + rest.sizes;
      forall i | 0 <= i < |run.sizes| - 1
        ensures run.sizes[i] >= size
          && SerialPass(grants(run.sizes[i]), ioctl(run.sizes[i]), run.sizes[i]) == Retry(run.sizes[i + 1])
      {
        if i > 0 {
          assert run.sizes[i] == rest.sizes[i - 1] && run.sizes[i + 1] == rest.sizes[i];
        }
      }
    case Done(_) =>
  }

  /** `GetSerial` reports a serial number only with NOERROR, and only from a
      pass whose allocation and call succeeded, whose Version is at least
      sizeof(STORAGE_DEVICE_DESCRIPTOR), whose declared Size fits the buffer
      and whose SerialNumberOffset is not zero; the serial number is then
      the NUL-terminated text at that offset. Conversely, a last pass with
      such a reply reports NOERROR and that text. */
  lemma SerialComesFromAFittingReply(grants: uint32 -> bool, ioctl: uint32 -> IoReply)
    ensures var run := SerialFrom(grants, ioctl, INITIAL_QUERY_SIZE);
      var last := run.sizes[|run.sizes| - 1];
      run.outcome.serial.Some? ==>
        && run.outcome.code == NO_ERROR
        && grants(last) && ioctl(last).IoOk?
        && var buf := Fit(ioctl(last).written, last);
        && ReadHeader(buf).version >= SIZE_OF_DESCRIPTOR
        && ReadHeader(buf).size <= last
        && ReadHeader(buf).serialNumberOffset != 0
        && run.outcome.serial.value == AsciiField(buf, ReadHeader(buf).serialNumberOffset).value
    ensures var run := SerialFrom(grants, ioctl, INITIAL_QUERY_SIZE);
      var last := run.sizes[|run.sizes| - 1];
      grants(last) && ioctl(last).IoOk? ==>
        var buf := Fit(ioctl(last).written, last);
        ReadHeader(buf).version >= SIZE_OF_DESCRIPTOR && ReadHeader(buf).size <= last
        && ReadHeader(buf).serialNumberOffset != 0 ==>
          run.outcome == SerialResult(NO_ERROR, Some(AsciiField(buf, ReadHeader(buf).serialNumberOffset).value))
  {
    SerialRunSteps(grants, ioctl, INITIAL_QUERY_SIZE);
  }

  /** The two drafts disagree on a zero SerialNumberOffset. For a reply with
      the Version Windows writes (40), a Size that fits and a zero serial
      offset, `GetSerial` finishes with ERROR_NO_DATA, while `OpenDisks`
      extracts at offset 0 and gets "(" — the low byte of Version, 0x28. */
  lemma ZeroSerialOffsetDraftsDisagree(query: uint32 -> IoReply, size: uint32)
    requires SIZE_OF_DESCRIPTOR <= size <= STRING_MAX_LENGTH && query(size).IoOk?
    requires var h := ReadHeader(Fit(query(size).written, size));
      && h.version == SIZE_OF_DESCRIPTOR && h.size <= size && h.serialNumberOffset == 0
      && h.vendorIdOffset < 0x8000_0000 && h.productIdOffset < 0x8000_0000
      && h.productRevisionOffset < 0x8000_0000
    ensures SerialPass(true, query(size), size) == Done(SerialResult(ERROR_NO_DATA, None))
    ensures QueryAttempt(query, size).Final? && QueryAttempt(query, size).result.Go?
    ensures QueryAttempt(query, size).result.value.serialNumber == "("
  {
    var buf := Fit(query(size).written, size);
    var h := ReadHeader(buf);
    assert QueryAttempt(query, size) == Final(DecodeIdentity(buf, h));
    ParenthesisSerial(buf);
  }

  /** With Version 40 and a zero serial offset, the C# draft's serial number
      is "(". */
  lemma ParenthesisSerial(buf: seq<byte>)
    requires |buf| >= SIZE_OF_DESCRIPTOR
    requires var h := ReadHeader(buf);
      h.version == SIZE_OF_DESCRIPTOR && h.serialNumberOffset == 0 && DecodeIdentity(buf, h).Go?
    ensures DecodeIdentity(buf, ReadHeader(buf)).value.serialNumber == "("
  {
    var h := ReadHeader(buf);
    VersionFortyBytes(buf);
    ZeroSerialOffsetReadsHeader(buf, h);
    assert NulIndex(buf) == 1;
    assert AsciiText(buf[..1]) == "(";
    TrimEndKeepsTrimmed("(");
  }

  /** Version 40 is stored as the bytes 0x28 ('('), 0, 0, 0. */
  lemma VersionFortyBytes(buf: seq<byte>)
    requires |buf| >= SIZE_OF_DESCRIPTOR && ReadHeader(buf).version == SIZE_OF_DESCRIPTOR
    ensures buf[0] == 0x28 && buf[1] == 0
  {
    assert buf[VERSION_AT..VERSION_AT + 4] == U32Bytes(SIZE_OF_DESCRIPTOR) == [0x28, 0, 0, 0];
  }

  /** `GetSerial`, with a failed control call ending the loop. Every block the
      loop allocates is freed before the next pass or the return. */
  method GetSerial(heap: LocalHeap, ioctl: uint32 -> IoReply) returns (dwError: uint32, serial: Option<string>)
    modifies heap
    ensures heap.blocks == old(heap.blocks)
    ensures SerialResult(dwError, serial) == SerialFrom(heap.grants, ioctl, INITIAL_QUERY_SIZE).outcome
  {
    ghost var whole := SerialFrom(heap.grants, ioctl, INITIAL_QUERY_SIZE).outcome;
    var size: uint32 := INITIAL_QUERY_SIZE;
    serial := None;
    dwError := ERROR_NO_SYSTEM_RESOURCES;
    var retry := true;  // a do-while: the body runs at least once
    while retry
      invariant size >= INITIAL_QUERY_SIZE
      invariant heap.blocks == old(heap.blocks)
      invariant retry ==> serial == None && SerialFrom(heap.grants, ioctl, size).outcome == whole
      invariant !retry ==> SerialResult(dwError, serial) == whole
      decreases 0x1_0000_0000 - size, if retry then 1 else 0
    {
      ghost var pass := SerialPass(heap.grants(size), ioctl(size), size);
      dwError := ERROR_NO_SYSTEM_RESOURCES;
      retry := false;
      var buf := heap.LocalAlloc(size);
      if buf != null {
        var reply := ioctl(size);
        if reply.IoOk? {
          var contents := Fit(reply.written, size);
          forall i | 0 <= i < buf.Length {
            buf[i] := contents[i];
          }
          assert buf[..] == contents;
          var header := ReadHeader(buf[..]);
          if header.version >= SIZE_OF_DESCRIPTOR {
            if header.size > size {
              size := header.size;
              dwError := ERROR_MORE_DATA;
              retry := true;
            } else if header.serialNumberOffset != 0 {
              serial := Some(AsciiField(buf[..], header.serialNumberOffset).value);
              dwError := NO_ERROR;
            } else {
              dwError := ERROR_NO_DATA;
            }
          } else {
            dwError := ERROR_GEN_FAILURE;
          }
        } else {
          dwError := reply.lastError;
        }
        heap.LocalFree(buf);
      }
      assert pass == if retry then Retry(size) else Done(SerialResult(dwError, serial));
    }
  }
}
