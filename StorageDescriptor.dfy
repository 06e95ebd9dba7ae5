/** The fixed header of the STORAGE_DEVICE_DESCRIPTOR record (ntddstor.h)
    that IOCTL_STORAGE_QUERY_PROPERTY writes at the start of the caller's
    buffer, read field by field from the bytes instead of by reinterpreting
    the buffer's memory. All fields are little-endian 32-bit values:

      Version @0, Size @4, (DeviceType, DeviceTypeModifier, RemovableMedia,
      CommandQueueing @8..11), VendorIdOffset @12, ProductIdOffset @16,
      ProductRevisionOffset @20, SerialNumberOffset @24, (BusType @28,
      RawPropertiesLength @32, RawDeviceProperties @36); sizeof is 40.

    The string offsets are relative to the start of the record. */
module StorageDescriptor {
  import opened Win32

  /** sizeof(STORAGE_DEVICE_DESCRIPTOR). */
  const SIZE_OF_DESCRIPTOR: nat := 40

  const VERSION_AT: nat := 0
  const SIZE_AT: nat := 4
  const VENDOR_ID_OFFSET_AT: nat := 12
  const PRODUCT_ID_OFFSET_AT: nat := 16
  const PRODUCT_REVISION_OFFSET_AT: nat := 20
  const SERIAL_NUMBER_OFFSET_AT: nat := 24

  /** The header fields the disk code reads. */
  datatype DescriptorHeader = DescriptorHeader(
    version: uint32,
    size: uint32,
    vendorIdOffset: uint32,
    productIdOffset: uint32,
    productRevisionOffset: uint32,
    serialNumberOffset: uint32)

  /** The header fields of a buffer that holds at least a whole record: each
      field is the value whose little-endian bytes are the buffer's bytes at
      the field's offset. */
  function ReadHeader(buf: seq<byte>): (h: DescriptorHeader)
    requires |buf| >= SIZE_OF_DESCRIPTOR
    ensures U32Bytes(h.version) == buf[VERSION_AT..VERSION_AT + 4]
    ensures U32Bytes(h.size) == buf[SIZE_AT..SIZE_AT + 4]
    ensures U32Bytes(h.vendorIdOffset) == buf[VENDOR_ID_OFFSET_AT..VENDOR_ID_OFFSET_AT + 4]
    ensures U32Bytes(h.productIdOffset) == buf[PRODUCT_ID_OFFSET_AT..PRODUCT_ID_OFFSET_AT + 4]
    ensures U32Bytes(h.productRevisionOffset) == buf[PRODUCT_REVISION_OFFSET_AT..PRODUCT_REVISION_OFFSET_AT + 4]
    ensures U32Bytes(h.serialNumberOffset) == buf[SERIAL_NUMBER_OFFSET_AT..SERIAL_NUMBER_OFFSET_AT + 4]
  {
    U32BytesOfRead(buf, VERSION_AT);
    U32BytesOfRead(buf, SIZE_AT);
    U32BytesOfRead(buf, VENDOR_ID_OFFSET_AT);
    U32BytesOfRead(buf, PRODUCT_ID_OFFSET_AT);
    U32BytesOfRead(buf, PRODUCT_REVISION_OFFSET_AT);
    U32BytesOfRead(buf, SERIAL_NUMBER_OFFSET_AT);
    DescriptorHeader(
      ReadU32(buf, VERSION_AT),
      ReadU32(buf, SIZE_AT),
      ReadU32(buf, VENDOR_ID_OFFSET_AT),
      ReadU32(buf, PRODUCT_ID_OFFSET_AT),
      ReadU32(buf, PRODUCT_REVISION_OFFSET_AT),
      ReadU32(buf, SERIAL_NUMBER_OFFSET_AT))
  }

  /** The header of any buffer: nothing when the buffer is shorter than the
      record, so no field is read outside it. */
  function DecodeHeader(buf: seq<byte>): (h: Option<DescriptorHeader>)
    ensures h.Some? <==> |buf| >= SIZE_OF_DESCRIPTOR
  {
    if |buf| < SIZE_OF_DESCRIPTOR then None else Some(ReadHeader(buf))
  }

  /** A 40-byte record carrying the header fields h; the bytes the disk code
      does not read are zero. */
  function EncodeHeader(h: DescriptorHeader): (b: seq<byte>)
    ensures |b| == SIZE_OF_DESCRIPTOR
  {
    U32Bytes(h.version) + U32Bytes(h.size) + [0, 0, 0, 0]
    + U32Bytes(h.vendorIdOffset) + U32Bytes(h.productIdOffset)
    + U32Bytes(h.productRevisionOffset) + U32Bytes(h.serialNumberOffset)
    + seq(12, _ => 0)
  }

  /** Decoding an encoded header, whatever follows it in the buffer, gives the
      header back, both through the bounds-checked decode and through the
      field reads the query loops make on a buffer known to be large enough. */
  lemma HeaderRoundTrip(h: DescriptorHeader, trailer: seq<byte>)
    ensures ReadHeader(EncodeHeader(h) + trailer) == h
    ensures DecodeHeader(EncodeHeader(h) + trailer) == Some(h)
  {
    var b := EncodeHeader(h) + trailer;
    assert b[VERSION_AT..VERSION_AT + 4] == U32Bytes(h.version);
    assert b[SIZE_AT..SIZE_AT + 4] == U32Bytes(h.size);
    assert b[VENDOR_ID_OFFSET_AT..VENDOR_ID_OFFSET_AT + 4] == U32Bytes(h.vendorIdOffset);
    assert b[PRODUCT_ID_OFFSET_AT..PRODUCT_ID_OFFSET_AT + 4] == U32Bytes(h.productIdOffset);
    assert b[PRODUCT_REVISION_OFFSET_AT..PRODUCT_REVISION_OFFSET_AT + 4] == U32Bytes(h.productRevisionOffset);
    assert b[SERIAL_NUMBER_OFFSET_AT..SERIAL_NUMBER_OFFSET_AT + 4] == U32Bytes(h.serialNumberOffset);
    FieldRoundTrip(b, VERSION_AT, h.version);
    FieldRoundTrip(b, SIZE_AT, h.size);
    FieldRoundTrip(b, VENDOR_ID_OFFSET_AT, h.vendorIdOffset);
    FieldRoundTrip(b, PRODUCT_ID_OFFSET_AT, h.productIdOffset);
    FieldRoundTrip(b, PRODUCT_REVISION_OFFSET_AT, h.productRevisionOffset);
    FieldRoundTrip(b, SERIAL_NUMBER_OFFSET_AT, h.serialNumberOffset);
  }

  lemma FieldRoundTrip(b: seq<byte>, at: nat, v: uint32)
    requires at + 4 <= |b| && b[at..at + 4] == U32Bytes(v)
    ensures ReadU32(b, at) == v
  {
    U32RoundTrip(v);
    assert ReadU32(b, at) == ReadU32(U32Bytes(v), 0) by {
      assert b[at..at + 4][0] == b[at];
      assert b[at..at + 4][1] == b[at + 1];
      assert b[at..at + 4][2] == b[at + 2];
      assert b[at..at + 4][3] == b[at + 3];
    }
  }
}
