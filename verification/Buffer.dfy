/** The byte buffer of a connection: a vector with a read and a write index. Seen from outside it
    is a queue of bytes.
 */
module Buffers {
  const CHEAP_PREPEND: nat := 8
  const EXTRA: nat := 65536

  /** Where a pattern first occurs, or the length of the text when it does not. */
  function Find(text: string, pattern: string): (i: nat)
    ensures i <= |text|
    ensures i < |text| ==> OccursAt(text, pattern, i)
    ensures forall j :: 0 <= j < i ==> !OccursAt(text, pattern, j)
  {
    FindFrom(text, pattern, 0)
  }

  function FindFrom(text: string, pattern: string, from: nat): (i: nat)
    requires from <= |text|
    ensures from <= i <= |text|
    ensures i < |text| ==> OccursAt(text, pattern, i)
    ensures forall j :: from <= j < i ==> !OccursAt(text, pattern, j)
    decreases |text| - from
  {
    if from == |text| || OccursAt(text, pattern, from) then from else FindFrom(text, pattern, from + 1)
  }

  predicate OccursAt(text: string, pattern: string, i: nat) {
    i + |pattern| <= |text| && text[i..i + |pattern|] == pattern
  }

  lemma SliceOfSlice(s: string, lo: nat, hi: nat, a: nat, b: nat)
    requires lo <= hi <= |s| && a <= b <= hi - lo
    ensures s[lo..hi][a..b] == s[lo + a..lo + b]
  {
    var t := s[lo..hi];
    forall k | 0 <= k < b - a
      ensures t[a..b][k] == s[lo + a..lo + b][k]
    {
      assert t[a + k] == s[lo + (a + k)];
    }
  }

  lemma OccursInSlice(s: string, lo: nat, hi: nat, pattern: string, at: nat)
    requires lo <= hi <= |s|
    ensures OccursAt(s[lo..hi], pattern, at) <==> at + |pattern| <= hi - lo && s[lo + at..lo + at + |pattern|] == pattern
  {
    if at + |pattern| <= hi - lo {
      SliceOfSlice(s, lo, hi, at, at + |pattern|);
    }
  }

  /** The two parts of a slice. */
  lemma SliceParts(s: string, lo: nat, hi: nat, len: nat)
    requires lo <= hi <= |s| && len <= hi - lo
    ensures s[lo..hi][..len] == s[lo..lo + len] && s[lo..hi][len..] == s[lo + len..hi]
  {
    SliceOfSlice(s, lo, hi, 0, len);
    SliceOfSlice(s, lo, hi, len, hi - lo);
  }

  lemma SlicesJoin(s: string, lo: nat, mid: nat, hi: nat)
    requires lo <= mid <= hi <= |s|
    ensures s[lo..hi] == s[lo..mid] + s[mid..hi]
  {
  }

  class Buffer {
    var buffer: array<char>
    var readerIndex: nat
    var writerIndex: nat

    ghost predicate Valid()
      reads this
    {
      CHEAP_PREPEND <= readerIndex <= writerIndex <= buffer.Length
    }

    /** The queue: the readable bytes. */
    ghost function Contents(): string
      requires Valid()
      reads this, buffer
    {
      buffer[readerIndex..writerIndex]
    }

    constructor (initialSize: nat)
      ensures Valid() && fresh(buffer) && Contents() == "" && WritableBytes() == initialSize
    {
      buffer := new char[CHEAP_PREPEND + initialSize](_ => '\0');
      readerIndex, writerIndex := CHEAP_PREPEND, CHEAP_PREPEND;
    }

    function ReadableBytes(): nat
      requires Valid()
      reads this, buffer
      ensures ReadableBytes() == |Contents()|
    {
      writerIndex - readerIndex
    }

    function WritableBytes(): nat
      requires Valid()
      reads this
    {
      buffer.Length - writerIndex
    }

    function PrependableBytes(): nat
      reads this
    {
      readerIndex
    }

    method Retrieve(len: nat)
      requires Valid() && len <= |Contents()|
      modifies this`readerIndex, this`writerIndex
      ensures Valid() && Contents() == old(Contents())[len..]
      ensures len == old(|Contents()|) ==> readerIndex == CHEAP_PREPEND
    {
      SliceParts(buffer[..], readerIndex, writerIndex, len);
      if len < ReadableBytes() {
        readerIndex := readerIndex + len;
      } else {
        RetrieveAll();
      }
    }

    method RetrieveAll()
      requires Valid()
      modifies this`readerIndex, this`writerIndex
      ensures Valid() && Contents() == "" && readerIndex == CHEAP_PREPEND
    {
      readerIndex, writerIndex := CHEAP_PREPEND, CHEAP_PREPEND;
    }

    method RetrieveAsString(len: nat) returns (result: string)
      requires Valid() && len <= |Contents()|
      modifies this`readerIndex, this`writerIndex
      ensures Valid() && result == old(Contents())[..len] && Contents() == old(Contents())[len..]
    {
      SliceParts(buffer[..], readerIndex, writerIndex, len);
      result := buffer[readerIndex..readerIndex + len];
      Retrieve(len);
    }

    /** The offset of the first occurrence of a pattern in the readable bytes, if any. */
    method FindChars(pattern: string) returns (found: bool, at: nat)
      requires Valid() && pattern != ""
      ensures at == Find(Contents(), pattern)
      ensures found <==> at < |Contents()|
    {
      ghost var text := Contents();
      at := 0;
      while at < ReadableBytes()
        invariant at <= |text| && FindFrom(text, pattern, at) == Find(text, pattern)
      {
        assert text == buffer[..][readerIndex..writerIndex];
        OccursInSlice(buffer[..], readerIndex, writerIndex, pattern, at);
        if at + |pattern| <= ReadableBytes() && buffer[readerIndex + at..readerIndex + at + |pattern|] == pattern {
          return true, at;
        }
        at := at + 1;
      }
      found := false;
    }

    method Append(data: string)
      requires Valid()
      modifies this, buffer
      ensures Valid() && (buffer == old(buffer) || fresh(buffer))
      ensures Contents() == old(Contents()) + data
    {
      EnsureWritableBytes(|data|);
      Fill(data);
      ghost var end := writerIndex;
      writerIndex := writerIndex + |data|;
      SlicesJoin(buffer[..], readerIndex, end, writerIndex);
      assert buffer[..][readerIndex..end] == buffer[readerIndex..end] && buffer[..][end..writerIndex] == buffer[end..writerIndex];
      assert buffer[..][readerIndex..writerIndex] == Contents();
    }

    /** Copies bytes behind the write index without moving it. */
    method Fill(data: string)
      requires Valid() && |data| <= WritableBytes()
      modifies buffer
      ensures buffer[writerIndex..writerIndex + |data|] == data
      ensures Contents() == old(Contents())
    {
      for i := 0 to |data|
        invariant buffer[..writerIndex] == old(buffer[..writerIndex])
        invariant buffer[writerIndex..writerIndex + i] == data[..i]
      {
        buffer[writerIndex + i] := data[i];
      }
      assert buffer[readerIndex..writerIndex] == buffer[..writerIndex][readerIndex..];
    }

    /** Room for len more bytes; the final assertion of the code is its postcondition. */
    method EnsureWritableBytes(len: nat)
      requires Valid()
      modifies this, buffer
      ensures Valid() && (buffer == old(buffer) || fresh(buffer))
      ensures Contents() == old(Contents()) && WritableBytes() >= len
      ensures old(WritableBytes()) >= len ==> buffer == old(buffer) && readerIndex == old(readerIndex)
    {
      if WritableBytes() < len {
        MakeSpace(len);
      }
    }

    /** The vector grows only when free space at both ends together would not do, and then by exactly
        what is missing; otherwise the bytes move to the front of the same vector. */
    method MakeSpace(len: nat)
      requires Valid() && WritableBytes() < len
      modifies this, buffer
      ensures Valid() && (buffer == old(buffer) || fresh(buffer))
      ensures Contents() == old(Contents()) && WritableBytes() >= len
      ensures if old(WritableBytes() + PrependableBytes()) < len + CHEAP_PREPEND
        then fresh(buffer) && buffer.Length == old(writerIndex) + len && readerIndex == old(readerIndex)
        else buffer == old(buffer) && readerIndex == CHEAP_PREPEND
    {
      if WritableBytes() + PrependableBytes() < len + CHEAP_PREPEND {
        Resize(writerIndex + len);
      } else {
        assert CHEAP_PREPEND < readerIndex;
        var readable := ReadableBytes();
        CopyDown(readable);
        readerIndex := CHEAP_PREPEND;
        writerIndex := readerIndex + readable;
      }
    }

    /** The vector grows; what it held stays where it was. */
    method Resize(size: nat)
      requires Valid() && size > buffer.Length
      modifies this`buffer
      ensures Valid() && fresh(buffer) && buffer.Length == size && Contents() == old(Contents())
    {
      var grown := new char[size](_ => '\0');
      forall i | 0 <= i < buffer.Length {
        grown[i] := buffer[i];
      }
      assert grown[readerIndex..writerIndex] == Contents();
      buffer := grown;
    }

    /** Moves the readable bytes to the front, first byte first; source and target may overlap. */
    method CopyDown(readable: nat)
      requires Valid() && CHEAP_PREPEND < readerIndex && readable == |Contents()|
      modifies buffer
      ensures buffer[CHEAP_PREPEND..CHEAP_PREPEND + readable] == old(Contents())
    {
      ghost var text := Contents();
      for i := 0 to readable
        invariant forall j :: 0 <= j < i ==> buffer[CHEAP_PREPEND + j] == text[j]
        invariant forall j :: i <= j < readable ==> buffer[readerIndex + j] == text[j]
      {
        buffer[CHEAP_PREPEND + i] := buffer[readerIndex + i];
      }
    }

    /** One readv: the kernel fills the free space of the vector and then a second area, whose
        bytes are appended. `incoming` is what arrived; an error leaves everything as it is. */
    method ReadFd(incoming: string, error: bool) returns (n: int)
      requires Valid() && |incoming| <= WritableBytes() + EXTRA
      modifies this, buffer
      ensures Valid() && (buffer == old(buffer) || fresh(buffer))
      ensures Contents() == if error then old(Contents()) else old(Contents()) + incoming
      ensures n == if error then -1 else |incoming|
    {
      if error {
        return -1;
      }
      n := |incoming|;
      var writable := WritableBytes();
      if n <= writable {
        Fill(incoming);
        writerIndex := writerIndex + n;
      } else {
        Fill(incoming[..writable]);
        writerIndex := buffer.Length;
        assert Contents() == old(Contents()) + incoming[..writable];
        Append(incoming[writable..]);
        assert incoming == incoming[..writable] + incoming[writable..];
      }
    }
  }
}
