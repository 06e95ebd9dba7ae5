/** `DiskIO.OpenDisks` (DiskIO.cs): enumerate the present disk-class device
    interfaces; for each, fetch the interface detail record with a
    probe-then-allocate call pair, decode the device path, open the device,
    name it `\\?\PhysicalDriveN`, check the capacity query, and read the
    STORAGE_DEVICE_DESCRIPTOR with a growing buffer, extracting and trimming
    its four identity strings.

    The operating system is an oracle: each device interface is a
    `DeviceOracle` record saying how every call on it answers, and a call
    that fills a buffer is a function from the buffer size to the reply. */
module DiskIO {
  import opened Win32
  import opened DotNet
  import opened AsciiStrings
  import opened StorageDescriptor

  /** offsetof(SP_DEVICE_INTERFACE_DETAIL_DATA_W, DevicePath): the path
      follows the 4-byte cbSize field. */
  const DEVICE_PATH_OFFSET: nat := 4

  /** The literal in front of the device number in a drive's canonical name:
      the 17 characters \\?\PhysicalDrive. */
  const PHYSICAL_DRIVE_PREFIX: string := "\\\\?\\PhysicalDrive"

  /** The first buffer size of the property query: a whole descriptor plus
      0x100 bytes for its strings. */
  const INITIAL_QUERY_SIZE: uint32 := SIZE_OF_DESCRIPTOR + 0x100

  /** What the zero-length `SetupDiGetDeviceInterfaceDetail` probe leaves
      behind: the last error and the size it reports. */
  datatype DetailProbe = DetailProbe(lastError: uint32, requiredSize: uint32)

  /** The answer of a call that fills a caller buffer: failure with the last
      error, or success with the bytes written into the buffer. */
  datatype IoReply = IoFailed(lastError: uint32) | IoOk(written: seq<byte>)

  /** How the OS answers the calls made for one enumerated device interface. */
  datatype DeviceOracle = DeviceOracle(
    probe: DetailProbe,
    detail: uint32 -> IoReply,          // SetupDiGetDeviceInterfaceDetail, by buffer size
    open: seq<CodeUnit> -> bool,        // whether CreateFile on a path gives a valid handle
    deviceNumber: uint32,               // IOCTL_STORAGE_GET_DEVICE_NUMBER's DeviceNumber
    readCapacity: bool,                 // whether IOCTL_STORAGE_READ_CAPACITY succeeds
    queryProperty: uint32 -> IoReply)   // IOCTL_STORAGE_QUERY_PROPERTY, by buffer size

  /** The four trimmed strings of a device descriptor. */
  datatype Identity = Identity(
    serialNumber: string,
    vendorId: string,
    productId: string,
    productRevision: string)

  /** What the routine computes for one device. */
  datatype Disk = Disk(devicePath: seq<CodeUnit>, canonicalName: string, identity: Identity)

  /** The call whose failure makes the routine return. */
  datatype Stage = ProbeFailed | DetailFailed | OpenFailed | CapacityFailed | QueryFailed

  /** How the routine ends early: a silent `return`, or an exception. */
  datatype Halt = Returned(stage: Stage) | Raised(ex: Exception)

  /** A step that either goes on with a value or ends the routine. */
  datatype Step<T> = Go(value: T) | Halted(halt: Halt)

  /** How the whole enumeration ends. */
  datatype Ending = Completed | Aborted(halt: Halt)

  /** The buffer sizes a growing-buffer loop tried, in order, and its result. */
  datatype Run<T> = Run(sizes: seq<uint32>, outcome: T)

  predicate StrictlyIncreasing(s: seq<uint32>) {
    forall i, j :: 0 <= i < j < |s| ==> s[i] < s[j]
  }

  /** C#'s unchecked `(int)` conversion of a uint: the int that agrees with v
      modulo 2^32. */
  function ToInt32(v: uint32): (i: int)
    ensures -0x8000_0000 <= i < 0x8000_0000
    ensures (i - v) % 0x1_0000_0000 == 0
  {
    if v < 0x8000_0000 then v else v - 0x1_0000_0000
  }

  // ---------------------------------------------------------------------
  // Probe, then allocate the detail record at exactly the reported size.

  /** The detail record: the zero-length probe must fail with
      ERROR_INSUFFICIENT_BUFFER, and the second call gets a buffer of exactly
      the size the probe reported. Allocating more than `Array.MaxLength`
      bytes throws OutOfMemoryException; an empty array is pinned as a null
      pointer, so writing its cbSize throws NullReferenceException before the
      second call. */
  function FetchDetail(probe: DetailProbe, detail: uint32 -> IoReply): (r: Step<seq<byte>>)
    ensures r.Go? <==>
      && probe.lastError == ERROR_INSUFFICIENT_BUFFER
      && 0 < probe.requiredSize <= ARRAY_MAX_LENGTH
      && detail(probe.requiredSize).IoOk?
    ensures r.Go? ==> r.value == Fit(detail(probe.requiredSize).written, probe.requiredSize)
    ensures probe.lastError != ERROR_INSUFFICIENT_BUFFER ==> r == Halted(Returned(ProbeFailed))
    ensures probe.lastError == ERROR_INSUFFICIENT_BUFFER && probe.requiredSize > ARRAY_MAX_LENGTH ==>
              r == Halted(Raised(OutOfMemory))
    ensures probe.lastError == ERROR_INSUFFICIENT_BUFFER && probe.requiredSize == 0 ==>
              r == Halted(Raised(NullReference))
    ensures r == Halted(Returned(DetailFailed)) <==>
      && probe.lastError == ERROR_INSUFFICIENT_BUFFER
      && 0 < probe.requiredSize <= ARRAY_MAX_LENGTH
      && detail(probe.requiredSize).IoFailed?
  {
    if probe.lastError != ERROR_INSUFFICIENT_BUFFER then Halted(Returned(ProbeFailed))
    else if probe.requiredSize > ARRAY_MAX_LENGTH then Halted(Raised(OutOfMemory))
    else if probe.requiredSize == 0 then Halted(Raised(NullReference))
    else match detail(probe.requiredSize)
      case IoFailed(_) => Halted(Returned(DetailFailed))
      case IoOk(written) => Go(Fit(written, probe.requiredSize))
  }

  // ---------------------------------------------------------------------
  // Device path and canonical name.

  predicate IsNulUnit(u: CodeUnit) {
    u == 0
  }

  /** `Encoding.Unicode.GetString(buffer[DevicePathOffset..]).TrimEnd((char)0)`:
      the range throws when the record is shorter than the offset, and
      `GetString` throws when the decoded string would be longer than the
      runtime's longest string. */
  function DevicePath(detail: seq<byte>): (r: Result<seq<CodeUnit>>)
    ensures r.Threw? <==>
      |detail| < DEVICE_PATH_OFFSET || (|detail| - DEVICE_PATH_OFFSET + 1) / 2 > STRING_MAX_LENGTH
    ensures |detail| < DEVICE_PATH_OFFSET ==> r == Threw(ArgumentOutOfRange)
    ensures |detail| >= DEVICE_PATH_OFFSET && r.Threw? ==> r.ex == OutOfMemory
    ensures r.Ok? ==> r.value == [] || r.value[|r.value| - 1] != 0
    ensures r.Ok? ==> r.value <= Utf16LeUnits(detail[DEVICE_PATH_OFFSET..])
    ensures r.Ok? ==> forall k :: |r.value| <= k < |Utf16LeUnits(detail[DEVICE_PATH_OFFSET..])| ==>
                        Utf16LeUnits(detail[DEVICE_PATH_OFFSET..])[k] == 0
  {
    if |detail| < DEVICE_PATH_OFFSET then Threw(ArgumentOutOfRange)
    else if (|detail| - DEVICE_PATH_OFFSET + 1) / 2 > STRING_MAX_LENGTH then Threw(OutOfMemory)
    else Ok(TrimEndBy(Utf16LeUnits(detail[DEVICE_PATH_OFFSET..]), IsNulUnit))
  }

  /** A detail record holding a path that does not end in NUL, written as
      UTF-16LE after the cbSize field and followed by NUL code units, decodes
      to that path when the runtime can hold the decoded string. */
  lemma DevicePathRoundTrip(cbSize: seq<byte>, path: seq<CodeUnit>, nuls: nat)
    requires |cbSize| == DEVICE_PATH_OFFSET
    requires path == [] || path[|path| - 1] != 0
    requires |path| + nuls <= STRING_MAX_LENGTH
    ensures DevicePath(cbSize + Utf16LeBytes(path) + seq(2 * nuls, _ => 0)) == Ok(path)
  {
    var detail := cbSize + Utf16LeBytes(path) + seq(2 * nuls, _ => 0);
    PathUnits(cbSize, path, nuls);
    PathFollowedByNuls(path, nuls);
    assert DevicePath(detail) == Ok(TrimEndBy(Utf16LeUnits(detail[DEVICE_PATH_OFFSET..]), IsNulUnit));
  }

  lemma PathUnits(cbSize: seq<byte>, path: seq<CodeUnit>, nuls: nat)
    requires |cbSize| == DEVICE_PATH_OFFSET
    ensures var detail := cbSize + Utf16LeBytes(path) + seq(2 * nuls, _ => 0);
      Utf16LeUnits(detail[DEVICE_PATH_OFFSET..]) == path + seq(nuls, _ => 0)
  {
    var zeros: seq<byte> := seq(2 * nuls, _ => 0);
    var detail := cbSize + Utf16LeBytes(path) + zeros;
    assert detail[DEVICE_PATH_OFFSET..] == Utf16LeBytes(path) + zeros;
    Utf16LeRoundTrip(path, zeros);
    Utf16LeUnitsOfZeros(nuls);
  }

  lemma PathFollowedByNuls(path: seq<CodeUnit>, nuls: nat)
    requires path == [] || path[|path| - 1] != 0
    ensures TrimEndBy(path + seq(nuls, _ => 0), IsNulUnit) == path
  {
    var units := path + seq(nuls, _ => 0);
    assert forall k :: |path| <= k < |units| ==> units[k] == 0;
    TrimEndByUnique(units, path, IsNulUnit);
  }

  /** `"\\\\?\\PhysicalDrive" + diskNumber.DeviceNumber`. */
  function CanonicalName(deviceNumber: uint32): (name: string)
    ensures |name| > |PHYSICAL_DRIVE_PREFIX|
    ensures name[..|PHYSICAL_DRIVE_PREFIX|] == PHYSICAL_DRIVE_PREFIX
    ensures IsDigits(name[|PHYSICAL_DRIVE_PREFIX|..])
  {
    PHYSICAL_DRIVE_PREFIX + DecimalDigits(deviceNumber)
  }

  /** The canonical name is the prefix followed by decimal digits that read
      back as the device number. */
  lemma CanonicalNameNamesTheDrive(deviceNumber: uint32)
    ensures var name := CanonicalName(deviceNumber);
      && |name| > |PHYSICAL_DRIVE_PREFIX|
      && name[..|PHYSICAL_DRIVE_PREFIX|] == PHYSICAL_DRIVE_PREFIX
      && IsDigits(name[|PHYSICAL_DRIVE_PREFIX|..])
      && ParseDecimal(name[|PHYSICAL_DRIVE_PREFIX|..]) == deviceNumber
  {
    var name := CanonicalName(deviceNumber);
    assert name[|PHYSICAL_DRIVE_PREFIX|..] == DecimalDigits(deviceNumber);
    DecimalRoundTrip(deviceNumber);
  }

  /** Different device numbers give different canonical names. */
  lemma CanonicalNameInjective(m: uint32, n: uint32)
    requires CanonicalName(m) == CanonicalName(n)
    ensures m == n
  {
    CanonicalNameNamesTheDrive(m);
    CanonicalNameNamesTheDrive(n);
  }

  // ---------------------------------------------------------------------
  // The property query with a growing buffer.

  /** One pass of the query loop: retry with the declared Size, or the
      loop's result. */
  datatype Attempt = Grow(nextSize: uint32) | Final(result: Step<Identity>)

  /** The four strings at the header's offsets, each cast to int, extracted
      and right-trimmed, in the order serial, vendor, product, revision. */
  function DecodeIdentity(buf: seq<byte>, h: DescriptorHeader): (r: Step<Identity>)
    ensures r.Go? <==>
      && h.serialNumberOffset < 0x8000_0000 && h.vendorIdOffset < 0x8000_0000
      && h.productIdOffset < 0x8000_0000 && h.productRevisionOffset < 0x8000_0000
    ensures r.Halted? ==> r.halt == Raised(IndexOutOfRange)
  {
    var serial := AsciiField(buf, ToInt32(h.serialNumberOffset));
    var vendor := AsciiField(buf, ToInt32(h.vendorIdOffset));
    var product := AsciiField(buf, ToInt32(h.productIdOffset));
    var revision := AsciiField(buf, ToInt32(h.productRevisionOffset));
    if serial.Threw? then Halted(Raised(serial.ex))
    else if vendor.Threw? then Halted(Raised(vendor.ex))
    else if product.Threw? then Halted(Raised(product.ex))
    else if revision.Threw? then Halted(Raised(revision.ex))
    else Go(Identity(TrimEnd(serial.value), TrimEnd(vendor.value), TrimEnd(product.value), TrimEnd(revision.value)))
  }

  /** The query at one buffer size. Allocating more than `Array.MaxLength`
      bytes throws; a failed call makes the routine return; a declared Size
      above the buffer size means a retry at exactly that Size; otherwise the
      whole buffer is first decoded into a one-character-per-byte string,
      which throws for a buffer longer than the longest string, and then the
      strings are decoded from this buffer. */
  function QueryAttempt(query: uint32 -> IoReply, size: uint32): (a: Attempt)
    requires size >= SIZE_OF_DESCRIPTOR
    ensures size > ARRAY_MAX_LENGTH ==> a == Final(Halted(Raised(OutOfMemory)))
    ensures a.Grow? <==>
      size <= ARRAY_MAX_LENGTH && query(size).IoOk? && ReadHeader(Fit(query(size).written, size)).size > size
    ensures a.Grow? ==> a.nextSize == ReadHeader(Fit(query(size).written, size)).size
    ensures size <= ARRAY_MAX_LENGTH && query(size).IoFailed? ==> a == Final(Halted(Returned(QueryFailed)))
    ensures a.Final? && a.result.Go? ==> size <= STRING_MAX_LENGTH
    ensures && STRING_MAX_LENGTH < size <= ARRAY_MAX_LENGTH && query(size).IoOk?
            && ReadHeader(Fit(query(size).written, size)).size <= size ==>
              a == Final(Halted(Raised(OutOfMemory)))
  {
    if size > ARRAY_MAX_LENGTH then Final(Halted(Raised(OutOfMemory)))
    else match query(size)
    case IoFailed(_) => Final(Halted(Returned(QueryFailed)))
    case IoOk(written) =>
      var buf := Fit(written, size);
      var h := ReadHeader(buf);
      if h.size > size then Grow(h.size)
      // The unused `debug` string has one character per buffer byte.
      else if size > STRING_MAX_LENGTH then Final(Halted(Raised(OutOfMemory)))
      else Final(DecodeIdentity(buf, h))
  }

  /** The query loop from a buffer size on. It terminates because the size
      grows strictly and a ULONG is bounded. */
  function QueryFrom(query: uint32 -> IoReply, size: uint32): (run: Run<Step<Identity>>)
    requires size >= SIZE_OF_DESCRIPTOR
    ensures |run.sizes| >= 1 && run.sizes[0] == size
    ensures StrictlyIncreasing(run.sizes)
    ensures |run.sizes| <= 0x1_0000_0000 - size
    decreases 0x1_0000_0000 - size
  {
    match QueryAttempt(query, size)
    case Grow(next) =>
      var rest := QueryFrom(query, next);
      Run([size] + rest.sizes, rest.outcome)
    case Final(result) => Run([size], result)
  }

  /** Every retry of the loop is at exactly the Size the previous reply
      declared, and the loop's result is that of its last attempt. */
  lemma {:induction false} QueryRunSteps(query: uint32 -> IoReply, size: uint32)
    requires size >= SIZE_OF_DESCRIPTOR
    ensures var run := QueryFrom(query, size);
      && (forall i :: 0 <= i < |run.sizes| - 1 ==> run.sizes[i] >= size && QueryAttempt(query, run.sizes[i]) == Grow(run.sizes[i + 1]))
      && QueryAttempt(query, run.sizes[|run.sizes| - 1]) == Final(run.outcome)
    decreases 0x1_0000_0000 - size
  {
    var run := QueryFrom(query, size);
    match QueryAttempt(query, size)
    case Grow(next) =>
      QueryRunSteps(query, next);
      var rest := QueryFrom(query, next);
      assert run.sizes == [size] + rest.sizes;
      forall i | 0 <= i < |run.sizes| - 1
        ensures run.sizes[i] >= size && QueryAttempt(query, run.sizes[i]) == Grow(run.sizes[i + 1])
      {
        if i > 0 {
          assert run.sizes[i] == rest.sizes[i - 1] && run.sizes[i + 1] == rest.sizes[i];
        }
      }
    case Final(_) =>
  }

  /** The loop runs out of memory exactly when its last size is above
      `Array.MaxLength`, or above the longest string with a successful call.
      Otherwise strings are decoded only from a reply whose declared Size is
      at most the buffer size, and then from that reply's buffer. */
  lemma QueryDecodesOnlyWhenItFits(query: uint32 -> IoReply, size: uint32)
    requires size >= SIZE_OF_DESCRIPTOR
    ensures var run := QueryFrom(query, size);
      var last := run.sizes[|run.sizes| - 1];
      && (run.outcome == Halted(Raised(OutOfMemory)) <==>
            last > ARRAY_MAX_LENGTH || (last > STRING_MAX_LENGTH && query(last).IoOk?))
      && (run.outcome != Halted(Returned(QueryFailed)) && run.outcome != Halted(Raised(OutOfMemory)) ==>
        && last <= STRING_MAX_LENGTH
        && query(last).IoOk?
        && var buf := Fit(query(last).written, last);
        && ReadHeader(buf).size <= last
        && run.outcome == DecodeIdentity(buf, ReadHeader(buf)))
  {
    QueryRunSteps(query, size);
  }

  /** The four extractions of the query loop, on its byte array. */
  method ExtractIdentity(buffer: array<byte>, header: DescriptorHeader) returns (r: Step<Identity>)
    ensures r == DecodeIdentity(buffer[..], header)
  {
    var serial := UnsafeAsciiBytesToString(buffer, ToInt32(header.serialNumberOffset));
    if serial.Threw? { return Halted(Raised(serial.ex)); }
    var vendor := UnsafeAsciiBytesToString(buffer, ToInt32(header.vendorIdOffset));
    if vendor.Threw? { return Halted(Raised(vendor.ex)); }
    var productId := UnsafeAsciiBytesToString(buffer, ToInt32(header.productIdOffset));
    if productId.Threw? { return Halted(Raised(productId.ex)); }
    var productRevision := UnsafeAsciiBytesToString(buffer, ToInt32(header.productRevisionOffset));
    if productRevision.Threw? { return Halted(Raised(productRevision.ex)); }
    r := Go(Identity(TrimEnd(serial.value), TrimEnd(vendor.value), TrimEnd(productId.value), TrimEnd(productRevision.value)));
  }

  /** One pass of the query loop: a fresh byte array of `size` bytes that
      the OS fills, its header, and either the next size or the strings. */
  method QueryAtSize(query: uint32 -> IoReply, size: uint32) returns (a: Attempt)
    requires size >= SIZE_OF_DESCRIPTOR
    ensures a == QueryAttempt(query, size)
  {
    if size > ARRAY_MAX_LENGTH {
      // `new byte[size]` throws before the call.
      return Final(Halted(Raised(OutOfMemory)));
    }
    var reply := query(size);
    if reply.IoFailed? {
      return Final(Halted(Returned(QueryFailed)));
    }
    var contents := Fit(reply.written, size);
    var buffer := new byte[size](i requires 0 <= i < size => contents[i]);
    assert buffer[..] == contents;
    var header := ReadHeader(buffer[..]);
    if header.size > size {
      a := Grow(header.size);
    } else if size > STRING_MAX_LENGTH {
      // `Encoding.ASCII.GetString(buffer)` throws before any field is read.
      a := Final(Halted(Raised(OutOfMemory)));
    } else {
      var identity := ExtractIdentity(buffer, header);
      a := Final(identity);
    }
  }

  /** The query loop of `OpenDisks`: `sizes` are the sizes it tried. A failed
      call or an exception leaves the loop at once; otherwise `dwError` says
      whether to go round again. */
  method QueryDeviceDescriptor(query: uint32 -> IoReply) returns (sizes: seq<uint32>, result: Step<Identity>)
    ensures Run(sizes, result) == QueryFrom(query, INITIAL_QUERY_SIZE)
  {
    ghost var whole := QueryFrom(query, INITIAL_QUERY_SIZE);
    var size: uint32 := INITIAL_QUERY_SIZE;
    var dwError := ERROR_MORE_DATA;  // a do-while: the body runs at least once
    sizes := [];
    result := Halted(Returned(QueryFailed));
    while dwError == ERROR_MORE_DATA
      invariant size >= INITIAL_QUERY_SIZE
      invariant dwError == ERROR_MORE_DATA ==>
        sizes + QueryFrom(query, size).sizes == whole.sizes && QueryFrom(query, size).outcome == whole.outcome
      invariant dwError != ERROR_MORE_DATA ==> dwError == NO_ERROR && Run(sizes, result) == whole
      decreases 0x1_0000_0000 - size, if dwError == ERROR_MORE_DATA then 1 else 0
    {
      var attempt := QueryAtSize(query, size);
      sizes := sizes + [size];
      match attempt
      case Grow(next) =>
        size := next;
        dwError := ERROR_MORE_DATA;
      case Final(Halted(halt)) =>
        return sizes, Halted(halt);
      case Final(Go(identity)) =>
        result := Go(identity);
        dwError := NO_ERROR;
    }
  }

  /** A field as the routine keeps it: no NUL and no trailing white space. */
  predicate IsCleanField(s: string) {
    && (s == [] || !IsWhiteSpace(s[|s| - 1]))
    && forall i :: 0 <= i < |s| ==> s[i] != '\0'
  }

  /** Trimming an extracted field leaves a clean field. */
  lemma TrimmedFieldIsClean(buf: seq<byte>, offset: nat)
    ensures AsciiField(buf, offset).Ok? && IsCleanField(TrimEnd(AsciiField(buf, offset).value))
  {
    AsciiFieldBounds(buf, offset);
  }

  /** The decoded strings are clean, and each is the trimmed field at its
      header offset. */
  lemma DecodedIdentityIsClean(buf: seq<byte>, h: DescriptorHeader)
    requires DecodeIdentity(buf, h).Go?
    ensures var id := DecodeIdentity(buf, h).value;
      && id.serialNumber == TrimEnd(AsciiField(buf, h.serialNumberOffset).value)
      && id.vendorId == TrimEnd(AsciiField(buf, h.vendorIdOffset).value)
      && id.productId == TrimEnd(AsciiField(buf, h.productIdOffset).value)
      && id.productRevision == TrimEnd(AsciiField(buf, h.productRevisionOffset).value)
      && IsCleanField(id.serialNumber) && IsCleanField(id.vendorId)
      && IsCleanField(id.productId) && IsCleanField(id.productRevision)
  {
    TrimmedFieldIsClean(buf, h.serialNumberOffset);
    TrimmedFieldIsClean(buf, h.vendorIdOffset);
    TrimmedFieldIsClean(buf, h.productIdOffset);
    TrimmedFieldIsClean(buf, h.productRevisionOffset);
  }

  /** Offset 0 is not taken as "absent": the serial number is then the
      NUL-terminated text at the start of the record, that is, made from the
      bytes of the Version field. Its first character is Version's low byte
      whenever that byte is neither zero nor white space. */
  lemma ZeroSerialOffsetReadsHeader(buf: seq<byte>, h: DescriptorHeader)
    requires |buf| >= SIZE_OF_DESCRIPTOR && h == ReadHeader(buf)
    requires h.serialNumberOffset == 0 && DecodeIdentity(buf, h).Go?
    ensures var serial := DecodeIdentity(buf, h).value.serialNumber;
      && serial == TrimEnd(AsciiText(buf[..NulIndex(buf)]))
      && (buf[0] != 0 && !IsWhiteSpace(ByteChar(buf[0])) ==> serial != [] && serial[0] == ByteChar(buf[0]))
      && buf[0] == h.version % 0x100
  {
    assert buf[0..] == buf;
    assert AsciiField(buf, 0) == Ok(AsciiText(buf[..NulIndex(buf)]));
    U32BytesOfRead(buf, VERSION_AT);
    assert buf[0] == U32Bytes(h.version)[0];
    var t := AsciiText(buf[..NulIndex(buf)]);
    if buf[0] != 0 && !IsWhiteSpace(ByteChar(buf[0])) {
      assert NulIndex(buf) > 0;
      assert t[0] == ByteChar(buf[0]);
      assert |TrimEnd(t)| > 0;
    }
  }

  // ---------------------------------------------------------------------
  // One device, and the enumeration.

  /** What `OpenDisks` does with one enumerated device interface. */
  function DeviceStep(dev: DeviceOracle): Step<Disk> {
    match FetchDetail(dev.probe, dev.detail)
    case Halted(h) => Halted(h)
    case Go(detail) =>
      match DevicePath(detail)
      case Threw(ex) => Halted(Raised(ex))
      case Ok(path) => PathStep(dev, path)
  }

  /** What `OpenDisks` does with a device once it has the device's path. */
  function PathStep(dev: DeviceOracle, path: seq<CodeUnit>): (r: Step<Disk>)
    ensures r.Go? <==> dev.open(path) && dev.readCapacity && QueryFrom(dev.queryProperty, INITIAL_QUERY_SIZE).outcome.Go?
    ensures r.Go? ==> r.value.devicePath == path && r.value.canonicalName == CanonicalName(dev.deviceNumber)
    ensures !dev.open(path) ==> r == Halted(Returned(OpenFailed))
  {
    if !dev.open(path) then Halted(Returned(OpenFailed))
    else if !dev.readCapacity then Halted(Returned(CapacityFailed))
    else match QueryFrom(dev.queryProperty, INITIAL_QUERY_SIZE).outcome
      case Halted(h) => Halted(h)
      case Go(identity) => Go(Disk(path, CanonicalName(dev.deviceNumber), identity))
  }

  /** A device yields a disk exactly when the probe fails as expected and the
      detail call, the path decode, the open, the capacity query and the
      property query all succeed; the disk is then made of their results. */
  lemma DeviceStepSucceedsIff(dev: DeviceOracle)
    ensures DeviceStep(dev).Go? <==>
      && dev.probe.lastError == ERROR_INSUFFICIENT_BUFFER
      && 0 < dev.probe.requiredSize <= ARRAY_MAX_LENGTH
      && dev.detail(dev.probe.requiredSize).IoOk?
      && var detail := Fit(dev.detail(dev.probe.requiredSize).written, dev.probe.requiredSize);
      && |detail| >= DEVICE_PATH_OFFSET
      && (|detail| - DEVICE_PATH_OFFSET + 1) / 2 <= STRING_MAX_LENGTH
      && dev.open(DevicePath(detail).value)
      && dev.readCapacity
      && QueryFrom(dev.queryProperty, INITIAL_QUERY_SIZE).outcome.Go?
    ensures DeviceStep(dev).Go? ==>
      var d := DeviceStep(dev).value;
      && DevicePath(Fit(dev.detail(dev.probe.requiredSize).written, dev.probe.requiredSize)) == Ok(d.devicePath)
      && (d.devicePath == [] || d.devicePath[|d.devicePath| - 1] != 0)
      && d.canonicalName == PHYSICAL_DRIVE_PREFIX + DecimalDigits(dev.deviceNumber)
      && QueryFrom(dev.queryProperty, INITIAL_QUERY_SIZE).outcome == Go(d.identity)
  {
  }

  /** The body of the enumeration loop for one device interface. */
  method OpenDisk(dev: DeviceOracle) returns (step: Step<Disk>)
    ensures step == DeviceStep(dev)
  {
    // The zero-length probe must fail for want of buffer.
    if dev.probe.lastError != ERROR_INSUFFICIENT_BUFFER {
      return Halted(Returned(ProbeFailed));
    }
    var requiredSize := dev.probe.requiredSize;
    if requiredSize > ARRAY_MAX_LENGTH {
      return Halted(Raised(OutOfMemory));
    }
    if requiredSize == 0 {
      // The empty array is pinned as a null pointer; the cbSize write throws.
      return Halted(Raised(NullReference));
    }
    var reply := dev.detail(requiredSize);
    if reply.IoFailed? {
      return Halted(Returned(DetailFailed));
    }
    var buffer := Fit(reply.written, requiredSize);
    var devicePath := DevicePath(buffer);
    if devicePath.Threw? {
      return Halted(Raised(devicePath.ex));
    }
    if !dev.open(devicePath.value) {
      return Halted(Returned(OpenFailed));
    }
    var diskname := CanonicalName(dev.deviceNumber);
    if !dev.readCapacity {
      return Halted(Returned(CapacityFailed));
    }
    var sizes, identity := QueryDeviceDescriptor(dev.queryProperty);
    if identity.Halted? {
      return Halted(identity.halt);
    }
    return Go(Disk(devicePath.value, diskname, identity.value));
  }

  /** The disks are what the first |disks| devices yield, in order. */
  predicate OpenedInOrder(devices: seq<DeviceOracle>, disks: seq<Disk>) {
    && |disks| <= |devices|
    && forall k :: 0 <= k < |disks| ==> DeviceStep(devices[k]) == Go(disks[k])
  }

  lemma OpenedInOrderExtend(devices: seq<DeviceOracle>, disks: seq<Disk>, disk: Disk)
    requires OpenedInOrder(devices, disks) && |disks| < |devices|
    requires DeviceStep(devices[|disks|]) == Go(disk)
    ensures OpenedInOrder(devices, disks + [disk])
  {
    var more := disks + [disk];
    assert forall k :: 0 <= k < |disks| ==> more[k] == disks[k];
  }

  /** `OpenDisks`: processes the enumerated interfaces in order until the
      enumeration runs out or one of them ends the routine. */
  method OpenDisks(devices: seq<DeviceOracle>) returns (disks: seq<Disk>, ending: Ending)
    ensures |disks| <= |devices|
    ensures forall k :: 0 <= k < |disks| ==> DeviceStep(devices[k]) == Go(disks[k])
    ensures ending.Completed? <==> |disks| == |devices|
    ensures ending.Aborted? ==> DeviceStep(devices[|disks|]) == Halted(ending.halt)
  {
    var deviceIndex := 0;
    disks := [];
    while deviceIndex < |devices|
      invariant deviceIndex == |disks|
      invariant OpenedInOrder(devices, disks)
    {
      var step := OpenDisk(devices[deviceIndex]);
      if step.Halted? {
        return disks, Aborted(step.halt);
      }
      OpenedInOrderExtend(devices, disks, step.value);
      disks := disks + [step.value];
      deviceIndex := deviceIndex + 1;
    }
    ending := Completed;
  }
}
