/** The NUL-terminated single-byte string extractor of DiskIO.cs
    (`UnsafeAsciiBytesToString`): a specification on sequences and the
    scanning loop on the byte array itself. */
module AsciiStrings {
  import opened Win32
  import opened DotNet

  /** Index of the first zero byte of t, or |t| when t has none. */
  function NulIndex(t: seq<byte>): (k: nat)
    ensures k <= |t|
    ensures forall i :: 0 <= i < k ==> t[i] != 0
    ensures k < |t| ==> t[k] == 0
  {
    if t == [] || t[0] == 0 then 0 else 1 + NulIndex(t[1..])
  }

  /** One character per byte. */
  function AsciiText(t: seq<byte>): (s: string)
    ensures |s| == |t|
    ensures forall i :: 0 <= i < |t| ==> s[i] == ByteChar(t[i])
  {
    seq(|t|, i requires 0 <= i < |t| => ByteChar(t[i]))
  }

  /** What `UnsafeAsciiBytesToString(buffer, offset)` returns for a buffer
      holding s. A negative offset makes the scan's first test index the
      array out of bounds; an offset at or past the end gives the empty
      string; otherwise the text runs from offset to the first zero byte or
      to the end of the buffer. */
  function AsciiField(s: seq<byte>, offset: int): (r: Result<string>)
    ensures r.Threw? <==> offset < 0
    ensures r.Threw? ==> r.ex == IndexOutOfRange
    ensures offset >= |s| ==> r == Ok([])
  {
    if offset < 0 then Threw(IndexOutOfRange)
    else if offset >= |s| then Ok([])
    else Ok(AsciiText(s[offset..offset + NulIndex(s[offset..])]))
  }

  /** The field is exactly the bytes from offset up to, and excluding, the
      first zero byte at or after offset, or up to the end of the buffer
      when there is none. */
  lemma AsciiFieldSpan(s: seq<byte>, offset: int, end: int)
    requires 0 <= offset <= end <= |s|
    requires forall i :: offset <= i < end ==> s[i] != 0
    requires end == |s| || s[end] == 0
    ensures AsciiField(s, offset) == Ok(AsciiText(s[offset..end]))
  {
    if offset < |s| {
      var t := s[offset..];
      assert forall i :: 0 <= i < |t| ==> t[i] == s[offset + i];
      assert NulIndex(t) == end - offset;
    }
  }

  /** The field never contains NUL and is never longer than what follows the
      offset; it is empty when the byte at the offset is zero. */
  lemma AsciiFieldBounds(s: seq<byte>, offset: int)
    requires 0 <= offset
    ensures AsciiField(s, offset).Ok?
    ensures var t := AsciiField(s, offset).value;
      && (forall i :: 0 <= i < |t| ==> t[i] != '\0')
      && (offset <= |s| ==> |t| <= |s| - offset)
      && (offset < |s| && s[offset] == 0 ==> t == [])
  {
    if offset < |s| {
      var k := NulIndex(s[offset..]);
      var t := AsciiField(s, offset).value;
      forall i | 0 <= i < |t| ensures t[i] != '\0' {
        assert s[offset..][i] == s[offset + i];
      }
    }
  }

  /** `UnsafeAsciiBytesToString`: advances `end` from offset while it is
      inside the buffer and on a non-zero byte, then makes a string of the
      bytes in between. It only reads the buffer. */
  method UnsafeAsciiBytesToString(buffer: array<byte>, offset: int) returns (r: Result<string>)
    ensures r == AsciiField(buffer[..], offset)
  {
    if offset < 0 {
      // The loop's first test reads buffer[offset].
      return Threw(IndexOutOfRange);
    }
    var end := offset;
    while end < buffer.Length && buffer[end] != 0
      invariant offset <= end
      invariant end == offset || end <= buffer.Length
      invariant forall i :: offset <= i < end ==> buffer[i] != 0
      decreases buffer.Length - end
    {
      end := end + 1;
    }
    if offset >= buffer.Length {
      r := Ok([]);
    } else {
      AsciiFieldSpan(buffer[..], offset, end);
      r := Ok(AsciiText(buffer[offset..end]));
    }
  }
}
