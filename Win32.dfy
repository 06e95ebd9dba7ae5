/** Win32 scalar types, the error codes the disk code classifies, and the
    little-endian layout of 32-bit fields inside OS-filled buffers. */
module Win32 {

  type byte = x: int | 0 <= x < 0x100
  /** ULONG / DWORD / uint. */
  type uint32 = x: int | 0 <= x < 0x1_0000_0000

  datatype Option<T> = None | Some(value: T)

  // Error codes from winerror.h.
  const NO_ERROR: uint32 := 0
  const ERROR_GEN_FAILURE: uint32 := 31
  const ERROR_INSUFFICIENT_BUFFER: uint32 := 122
  const ERROR_NO_DATA: uint32 := 232
  const ERROR_MORE_DATA: uint32 := 234
  const ERROR_NO_SYSTEM_RESOURCES: uint32 := 1450

  /** The little-endian 32-bit value stored in s[at..at + 4]. */
  function ReadU32(s: seq<byte>, at: nat): uint32
    requires at + 4 <= |s|
  {
    s[at] as int + 0x100 * (s[at + 1] as int) + 0x1_0000 * (s[at + 2] as int) + 0x100_0000 * (s[at + 3] as int)
  }

  /** The four little-endian bytes of v. */
  function U32Bytes(v: uint32): (b: seq<byte>)
    ensures |b| == 4
  {
    var r1 := v / 0x100;
    var r2 := r1 / 0x100;
    [v % 0x100, r1 % 0x100, r2 % 0x100, r2 / 0x100]
  }

  /** Writing a value and reading it back gives the value. */
  lemma U32RoundTrip(v: uint32)
    ensures ReadU32(U32Bytes(v), 0) == v
  {
    var r1 := v / 0x100;
    var r2 := r1 / 0x100;
    assert v == v % 0x100 + 0x100 * r1;
    assert r1 == r1 % 0x100 + 0x100 * r2;
    assert r2 == r2 % 0x100 + 0x100 * (r2 / 0x100);
  }

  /** Reading four bytes and writing the value back gives the same four bytes. */
  lemma U32BytesOfRead(s: seq<byte>, at: nat)
    requires at + 4 <= |s|
    ensures U32Bytes(ReadU32(s, at)) == s[at..at + 4]
  {
    var v := ReadU32(s, at);
    var r1: int := s[at + 1] as int + 0x100 * (s[at + 2] as int) + 0x1_0000 * (s[at + 3] as int);
    var r2: int := s[at + 2] as int + 0x100 * (s[at + 3] as int);
    assert v == s[at] as int + 0x100 * r1;
    assert v / 0x100 == r1 && v % 0x100 == s[at];
    assert r1 == s[at + 1] as int + 0x100 * r2;
    assert r1 / 0x100 == r2 && r1 % 0x100 == s[at + 1];
    assert r2 / 0x100 == s[at + 3] && r2 % 0x100 == s[at + 2];
  }

  /** The contents of a caller buffer of `size` bytes after the OS wrote
      `written` into it: what the OS wrote, cut at the buffer's end, and zero
      bytes where it wrote nothing (a managed array starts zeroed). */
  function Fit(written: seq<byte>, size: nat): (buf: seq<byte>)
    ensures |buf| == size
    ensures forall i :: 0 <= i < size ==> buf[i] == (if i < |written| then written[i] else 0)
  {
    if |written| >= size then written[..size] else written + seq(size - |written|, _ => 0)
  }
}
