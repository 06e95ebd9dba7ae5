# Disk enumeration and descriptor decoding

A Dafny model of the byte-level decoding and retry logic of retrieve-disks,
a Windows tool that lists the physical disks and reads each disk's identity
strings. The operating system is an oracle throughout: every call that fills
a caller buffer is a function from the buffer size to a reply (failure with
a last-error code, or the bytes written), and the buffer the program then
holds is those bytes cut or zero-padded to its size.

Two drafts of the same logic are modelled:

- `DiskIO.OpenDisks` (C#). For each enumerated disk interface it probes the
  interface detail record with a zero-length call that must fail with
  ERROR_INSUFFICIENT_BUFFER, allocates exactly the reported size and fetches
  the record. It decodes the UTF-16LE device path that follows the 4-byte
  `cbSize` field and trims trailing NULs. It opens the device, names it
  `\\?\PhysicalDriveN` and requires the capacity query to succeed. Then it
  reads the STORAGE_DEVICE_DESCRIPTOR with a growing buffer (296 bytes first,
  then exactly the declared `Size`). Finally it extracts the four
  NUL-terminated strings at the header's offsets and right-trims them.
- `GetSerial` (C++). The same growing-buffer loop over `LocalAlloc`ed
  blocks, with a `Version` sanity check and a Win32 result code
  (NOERROR, ERROR_NO_DATA, ERROR_GEN_FAILURE, ERROR_NO_SYSTEM_RESOURCES or
  the call's last error). The pass as written is `SerialPassAsWritten`; the
  method `GetSerial` runs the corrected loop described under Findings, in
  which a failed call ends the loop whatever its last error.

Files:

- `Win32.dfy`: ULONG and byte types, the error codes, little-endian 32-bit
  fields, and `Fit` (the contents of a buffer after a call).
- `DotNet.dfy`: the runtime pieces the C# code relies on. These are
  exceptions, single-byte characters, `char.IsWhiteSpace` and `TrimEnd`,
  UTF-16LE decoding of code units, and the decimal rendering of a uint.
- `AsciiField.dfy`: `UnsafeAsciiBytesToString`, as a function on sequences
  and as the scanning loop on the array.
- `StorageDescriptor.dfy`: the header of STORAGE_DEVICE_DESCRIPTOR (ntddstor.h),
  decoded field by field with a bounds check.
- `DiskIO.dfy`: `OpenDisks`, its per-device step and its property-query loop.
- `SerialQuery.dfy`: `GetSerial`, the local heap it allocates from, and the
  comparison of the two drafts.

ntddstor.h documents a string offset of 0 in STORAGE_DEVICE_DESCRIPTOR as
"no such string". `GetSerial` honours it and reports ERROR_NO_DATA, but
`OpenDisks` extracts at offset 0 anyway and so reads the header's own bytes.
`ZeroSerialOffsetDraftsDisagree` shows the result: for the Version value
Windows writes (40, the character '(' as a byte), the C# serial number is "(".

Both drafts start the property query with a buffer of
sizeof(STORAGE_DEVICE_DESCRIPTOR) + 0x100 = 40 + 256 = 296 bytes.

In the C# draft, `new byte[n]` throws OutOfMemoryException for any n above
`Array.MaxLength` (0x7FFFFFC7), and an empty detail buffer is pinned as a
null pointer, so writing its `cbSize` throws NullReferenceException before
the second detail call. A string longer than 0x3FFFFFDF characters throws
OutOfMemoryException too: `GetString` on a detail record of 0x7FFFFFC3 bytes
or more, and the `debug` string, one character per byte, built from a
property buffer larger than that once its declared Size fits. All of these
are modelled as exceptions that end the routine.

## Model

| member | source | states |
|---|---|---|
| Win32.ReadU32 | src/RetrieveDisks/DiskIO.cs:174 | a ULONG field at an offset is its four bytes read little-endian; characterised by `U32RoundTrip` and `U32BytesOfRead` |
| Win32.U32RoundTrip | src/RetrieveDisks/DiskIO.cs:172-176 | a ULONG header field written as four little-endian bytes reads back as the same value |
| Win32.U32BytesOfRead | src/RetrieveDisks/DiskIO.cs:172-176 | reading a ULONG field and writing it back gives the same four bytes, so the decode loses nothing |
| Win32.Fit | src/RetrieveDisks/DiskIO.cs:154-167 | the buffer after a call has exactly the allocated size; each byte is what the OS wrote there, or zero where it wrote nothing |
| StorageDescriptor.ReadHeader | src/RetrieveDisks/DiskIO.cs:172-185 | each of Version, Size and the four string offsets is the ULONG whose little-endian bytes sit at that field's offset in the buffer, so writing the header back gives the buffer's first 40 bytes; the C++ draft reads `Version`, `Size` and `SerialNumberOffset` the same way (ConsoleApplication1.cpp:59-68) |
| StorageDescriptor.DecodeHeader | src/RetrieveDisks/DiskIO.cs:172 | a header is read exactly when the buffer holds a whole 40-byte record, so no field is read outside the buffer |
| StorageDescriptor.EncodeHeader | src/RetrieveDisks/DiskIO.cs:172 | the record layout used as the decoder's partner is 40 bytes long |
| StorageDescriptor.HeaderRoundTrip | src/RetrieveDisks/DiskIO.cs:172-185 | decoding an encoded header, whatever follows it, gives back Version, Size and the four string offsets, both through the field reads the loops make and through the bounds-checked decode |
| DotNet.ByteChar | src/RetrieveDisks/DiskIO.cs:29 | each byte becomes the character with that code |
| DotNet.IsWhiteSpace | src/RetrieveDisks/DiskIO.cs:182-185 | the characters `char.IsWhiteSpace` accepts, which `TrimEnd()` removes: U+0009..U+000D, U+0020, U+0085, U+00A0, U+1680, U+2000..U+200A, U+2028, U+2029, U+202F, U+205F and U+3000; NUL is not among them |
| DotNet.TrimEnd | src/RetrieveDisks/DiskIO.cs:182-185 | the trimmed string is a prefix of the input, does not end in white space, and every character removed is white space |
| DotNet.TrimEndBy | src/RetrieveDisks/DiskIO.cs:95 | the result is a prefix of the input, does not end in a trimmed element, and only trimmed elements were removed |
| DotNet.TrimEndByUnique | src/RetrieveDisks/DiskIO.cs:95 | any prefix with those three properties is the trimmed result, so trimming is fully specified by them |
| DotNet.TrimEndKeepsTrimmed | src/RetrieveDisks/DiskIO.cs:182-185 | `TrimEnd` keeps a string that does not end in white space, so it is idempotent |
| DotNet.Utf16LeUnits | src/RetrieveDisks/DiskIO.cs:95 | `Encoding.Unicode.GetString` yields one code unit per byte pair, and U+FFFD for a lone final byte |
| DotNet.Utf16LeUnitAt | src/RetrieveDisks/DiskIO.cs:95 | code unit k is byte 2k plus 0x100 times byte 2k + 1 (little-endian) |
| DotNet.Utf16LeBytes | src/RetrieveDisks/DiskIO.cs:95 | the encoder used as the decoder's partner gives two bytes per code unit |
| DotNet.Utf16LeRoundTrip | src/RetrieveDisks/DiskIO.cs:95 | decoding encoded code units followed by any bytes gives the units followed by the decoding of those bytes |
| DotNet.Utf16LeUnitsOfZeros | src/RetrieveDisks/DiskIO.cs:95 | 2n zero bytes decode to n NUL code units |
| DotNet.DecimalDigits | src/RetrieveDisks/DiskIO.cs:123 | `uint.ToString()` gives at least one decimal digit and a leading '0' only for zero |
| DotNet.DecimalRoundTrip | src/RetrieveDisks/DiskIO.cs:123 | the decimal rendering reads back as the number |
| DotNet.DecimalInjective | src/RetrieveDisks/DiskIO.cs:123 | different numbers have different renderings |
| AsciiStrings.NulIndex | src/RetrieveDisks/DiskIO.cs:20-24 | the scan stops at the first zero byte, or at the end when there is none |
| AsciiStrings.AsciiText | src/RetrieveDisks/DiskIO.cs:29 | one character per byte, in order |
| AsciiStrings.AsciiField | src/RetrieveDisks/DiskIO.cs:18-32 | the extractor throws IndexOutOfRange exactly when the offset is negative, and gives the empty string for an offset at or past the buffer's end |
| AsciiStrings.AsciiFieldSpan | src/RetrieveDisks/DiskIO.cs:20-29 | the field is exactly the bytes from the offset up to, and excluding, the first zero byte at or after it, or up to the buffer's end |
| AsciiStrings.AsciiFieldBounds | src/RetrieveDisks/DiskIO.cs:21-29 | for a non-negative offset the field has no NUL, is at most buffer.Length - offset long, and is empty when buffer[offset] is zero |
| AsciiStrings.UnsafeAsciiBytesToString | src/RetrieveDisks/DiskIO.cs:18-32 | the scanning loop returns the field of the buffer's contents and only reads the buffer, so two calls give the same string |
| DiskIO.ToInt32 | src/RetrieveDisks/DiskIO.cs:182-185 | the `(int)` cast of an offset is the int in range that agrees with it modulo 2^32 |
| DiskIO.FetchDetail | src/RetrieveDisks/DiskIO.cs:61-93 | the detail record is obtained exactly when the probe fails with ERROR_INSUFFICIENT_BUFFER, the required size is between 1 and `Array.MaxLength`, and the second call succeeds; the buffer then has exactly the probe's required size; a required size of 0 throws NullReferenceException, one above `Array.MaxLength` OutOfMemoryException, and a failed probe or call makes the routine return, naming it |
| DiskIO.DevicePath | src/RetrieveDisks/DiskIO.cs:95 | throws exactly when the record is shorter than the path offset (ArgumentOutOfRange) or decodes to more than 0x3FFFFFDF code units (OutOfMemory); otherwise the path is a prefix of the decoded units, never ends in NUL, and only NULs were removed |
| DiskIO.DevicePathRoundTrip | src/RetrieveDisks/DiskIO.cs:95 | a record holding cbSize, then a path not ending in NUL as UTF-16LE, then NUL units, decodes to that path whenever the decoded string fits the longest .NET string |
| DiskIO.CanonicalName | src/RetrieveDisks/DiskIO.cs:123 | the name is longer than `\\?\PhysicalDrive`, starts with it and continues with decimal digits only |
| DiskIO.CanonicalNameNamesTheDrive | src/RetrieveDisks/DiskIO.cs:123 | the name is `\\?\PhysicalDrive` followed by decimal digits that read back as the device number |
| DiskIO.CanonicalNameInjective | src/RetrieveDisks/DiskIO.cs:123 | different device numbers give different names |
| DiskIO.DecodeIdentity | src/RetrieveDisks/DiskIO.cs:182-185 | the four strings are decoded exactly when every offset is below 2^31; otherwise the cast offset is negative and IndexOutOfRange is raised |
| DiskIO.QueryAttempt | src/RetrieveDisks/DiskIO.cs:154-186 | a size above `Array.MaxLength` throws OutOfMemoryException; otherwise a pass retries exactly when the call succeeds and the declared Size exceeds the buffer, and then at exactly that Size, and a failed call makes the routine return; a successful call whose Size fits a buffer above 0x3FFFFFDF bytes throws OutOfMemoryException building the `debug` string, so strings are decoded only from buffers of at most 0x3FFFFFDF bytes |
| DiskIO.QueryFrom | src/RetrieveDisks/DiskIO.cs:150-189 | the loop starts at its initial size, the sizes it tries strictly increase, and there are at most 2^32 - size of them, so it terminates |
| DiskIO.QueryRunSteps | src/RetrieveDisks/DiskIO.cs:174-189 | every pass but the last retries at the next size tried, and the result is the last pass's |
| DiskIO.QueryDecodesOnlyWhenItFits | src/RetrieveDisks/DiskIO.cs:154-186 | the loop runs out of memory exactly when its last size is above `Array.MaxLength`, or above 0x3FFFFFDF with a successful call; otherwise strings are decoded only from a successful reply of at most 0x3FFFFFDF bytes whose declared Size fits the buffer, and from that reply's buffer |
| DiskIO.ExtractIdentity | src/RetrieveDisks/DiskIO.cs:182-185 | the four extractions on the array, serial first, give the decoded identity or the first exception |
| DiskIO.QueryAtSize | src/RetrieveDisks/DiskIO.cs:154-186 | one pass on a fresh array of `size` bytes gives exactly `QueryAttempt(query, size)` |
| DiskIO.QueryDeviceDescriptor | src/RetrieveDisks/DiskIO.cs:150-189 | the do-while loop tries exactly the sizes of `QueryFrom(query, 296)` and returns its outcome |
| DiskIO.TrimmedFieldIsClean | src/RetrieveDisks/DiskIO.cs:182-185 | a trimmed field has no NUL and no trailing white space |
| DiskIO.DecodedIdentityIsClean | src/RetrieveDisks/DiskIO.cs:179-186 | each of serial, vendor, product id and revision is the right-trimmed field at its header offset, and is clean |
| DiskIO.ZeroSerialOffsetReadsHeader | src/RetrieveDisks/DiskIO.cs:182 | a zero serial offset is not taken as absent: the serial is read from the record's start and begins with Version's low byte when that byte is neither zero nor white space |
| DiskIO.DeviceStep | src/RetrieveDisks/DiskIO.cs:61-186 | what one device interface yields: a disk or the halt that ends `OpenDisks`; characterised by `DeviceStepSucceedsIff` |
| DiskIO.PathStep | src/RetrieveDisks/DiskIO.cs:97-186 | once the path is known, a disk is yielded exactly when the device opens at that path, the capacity query succeeds and the property query gives an identity; the disk carries that path and the canonical name of the device number; a device that does not open makes the routine return |
| DiskIO.DeviceStepSucceedsIff | src/RetrieveDisks/DiskIO.cs:61-186 | a device yields a disk exactly when the probe, the allocation of a detail buffer of 1 to `Array.MaxLength` bytes, the detail call, a path decode within the longest string, open, capacity query and property query all succeed; the disk is made of their results |
| DiskIO.OpenDisk | src/RetrieveDisks/DiskIO.cs:59-189 | the loop body for one interface computes that device's step |
| DiskIO.OpenDisks | src/RetrieveDisks/DiskIO.cs:35-191 | the disks are what the first devices yield, in order; the routine completes exactly when every device yields a disk, and otherwise ends with the first failing device's halt |
| SerialQuery.LocalHeap.LocalAlloc | src/ConsoleApplication1/ConsoleApplication1.cpp:53 | an allocation gives a fresh block of the requested size, recorded as live, or null |
| SerialQuery.LocalHeap.LocalFree | src/ConsoleApplication1/ConsoleApplication1.cpp:90 | freeing removes the block from the live blocks |
| SerialQuery.SerialPassAsWritten | src/ConsoleApplication1/ConsoleApplication1.cpp:51-92 | one pass as written; a retry never shrinks the buffer |
| SerialQuery.AsWrittenAfter | src/ConsoleApplication1/ConsoleApplication1.cpp:49-92 | the state of the loop as written after k passes; the size never shrinks |
| SerialQuery.AsWrittenNeverEnds | src/ConsoleApplication1/ConsoleApplication1.cpp:85-92 | as written, a call that keeps failing with ERROR_MORE_DATA keeps the loop at 296 bytes after any number of passes |
| SerialQuery.SerialPass | src/ConsoleApplication1/ConsoleApplication1.cpp:51-92 | a retry strictly grows the buffer; a failed allocation gives ERROR_NO_SYSTEM_RESOURCES and a failed call its last error, without retry; a serial number comes only with NOERROR |
| SerialQuery.CorrectionOnlyAffectsMoreData | src/ConsoleApplication1/ConsoleApplication1.cpp:85-92 | the corrected pass differs from the pass as written exactly for a failed call whose last error is ERROR_MORE_DATA |
| SerialQuery.SerialPassClassifies | src/ConsoleApplication1/ConsoleApplication1.cpp:59-83 | Version below 40 gives ERROR_GEN_FAILURE with no retry whatever Size says; otherwise a retry happens exactly when Size exceeds the buffer, at that Size; when it fits, ERROR_NO_DATA exactly for a zero serial offset, and a non-zero offset gives NOERROR with the NUL-free text at the offset |
| SerialQuery.SerialFrom | src/ConsoleApplication1/ConsoleApplication1.cpp:45-94 | the loop starts at 296 bytes, its sizes strictly increase and are at most 2^32 - 296 in number, so it terminates |
| SerialQuery.SerialRunSteps | src/ConsoleApplication1/ConsoleApplication1.cpp:61-92 | every pass but the last retries at the next size tried, and the result is the last pass's |
| SerialQuery.SerialComesFromAFittingReply | src/ConsoleApplication1/ConsoleApplication1.cpp:59-77 | a serial number is reported only with NOERROR, from a successful allocation and call whose Version is valid, whose Size fits and whose serial offset is non-zero, as the text at that offset; conversely such a last pass reports NOERROR and that text |
| SerialQuery.ParenthesisSerial | src/RetrieveDisks/DiskIO.cs:182 | a fitting record with Version 40 and serial offset 0 decodes the serial number "(" |
| SerialQuery.ZeroSerialOffsetDraftsDisagree | src/ConsoleApplication1/ConsoleApplication1.cpp:68-77 | for a reply with Version 40, a fitting Size and a zero serial offset, `GetSerial` gives ERROR_NO_DATA while the C# query decodes the serial number "(" |
| SerialQuery.GetSerial | src/ConsoleApplication1/ConsoleApplication1.cpp:35-95 | the corrected loop (see Findings: a failed call ends it even with ERROR_MORE_DATA) returns the code and serial number of `SerialFrom`, and frees every block it allocates, leaving the live blocks as they were |

## Left out

- The Win32 calls (`SetupDiGetClassDevs`, `SetupDiEnumDeviceInterfaces`, `SetupDiGetDeviceInterfaceDetail`, `CreateFile`, `DeviceIoControl`) are foreign; each is an oracle, and the enumeration is the sequence of interfaces it yields.
- Handle disposal (`using`, `CloseHandle`, the device-information set) is resource lifetime in native code and has no effect on the values computed.
- The IOCTL_STORAGE_GET_DEVICE_NUMBER call is unchecked in the source; its DeviceNumber is a value of the oracle, and what an uninitialised structure would hold after a failure is not modelled.
- The IOCTL_STORAGE_READ_CAPACITY result is never read; only whether the call succeeds is modelled.
- The `debug` string is never read; only the OutOfMemoryException its construction throws for a buffer above 0x3FFFFFDF bytes is modelled. The `bytesReturned` count is never read and is not modelled.
- SerialQuery.ZeroSerialOffsetDraftsDisagree: stated for buffer sizes up to 0x3FFFFFDF, since above it the C# draft throws OutOfMemoryException building the `debug` string before any decode.
- ByteChar: bytes from 0x80 up become U+0080..U+00FF; the system code page that `new string(sbyte*, …)` decodes them with is locale-dependent.
- DevicePath: the path is a sequence of UTF-16 code units; surrogate validation and replacement inside `GetString` are not modelled, only the U+FFFD for a lone final byte.
- SerialPassAsWritten: the C++ code reads `psz + SerialNumberOffset` with no bound, so an offset at or past the buffer's end, or text without a NUL inside the buffer, reads outside the block; the model stops at the buffer's end instead.
- FetchDetail: a required size of 1 to 3 bytes makes the `cbSize` write run past the array; that memory corruption is not modelled.
- OpenDisks: `new byte[n]` can also run out of memory below `Array.MaxLength` when the process has no memory left; only the fixed bound is modelled.
- Fit: bytes of a `LocalAlloc` block that the OS does not write are uninitialised in C++; the model takes them as zero.
- GetSerial: the serial number is returned instead of written to the console.
- `main` in the C++ file and the older copy of that file are OS plumbing with console output; the tests need real disks and a class that is not part of this model.

## Findings

| source | as written | input that shows it | evidently intended | confidence | as-written member | corrected member |
|---|---|---|---|---|---|---|
| src/ConsoleApplication1/ConsoleApplication1.cpp:85-92 | a failed `DeviceIoControl` stores `GetLastError()` in dwError, and the loop condition repeats on ERROR_MORE_DATA, so a failure with that last error repeats the call at an unchanged size | a device whose property query keeps failing with ERROR_MORE_DATA (234): every pass allocates 296 bytes, fails and goes round again, without end | only a declared Size larger than the buffer causes a retry, and that retry is at a strictly larger size; a failed call ends the loop with its last error | not executed | SerialQuery.AsWrittenNeverEnds | SerialQuery.SerialPass |
