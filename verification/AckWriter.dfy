/** The writer of ACK frames, which leaves out what does not fit in its buffer. */
module AckWriter {
  import opened Words
  import opened Varint

  /** Received packets, both ends included. */
  datatype Range = Range(start: nat, end: nat)

  /** Disjoint ranges, highest first, of numbers a varint can hold. */
  ghost predicate Descending(ranges: seq<Range>) {
    && (forall i :: 0 <= i < |ranges| ==> ranges[i].start <= ranges[i].end < VARINT_LIMIT)
    && (forall i :: 0 < i < |ranges| ==> ranges[i].end < ranges[i - 1].start)
  }

  /** Packets missing between range i and the one above it. */
  function Gap(ranges: seq<Range>, i: nat): (g: nat)
    requires 0 < i < |ranges| && Descending(ranges)
    ensures g < VARINT_LIMIT
  {
    ranges[i - 1].start - ranges[i].end - 1
  }

  function Count(ranges: seq<Range>, i: nat): (c: nat)
    requires 0 < i < |ranges| && Descending(ranges)
    ensures c < VARINT_LIMIT
  {
    assert ranges[i].end < ranges[i - 1].start <= ranges[i - 1].end;
    ranges[i].end - ranges[i].start + 1
  }

  /** A number that does not fit in the room is not written at all. */
  function EncodeInto(n: nat, room: nat): (b: seq<Byte>)
    requires n < VARINT_LIMIT
    ensures |b| <= room
  {
    if EncodedLength(n) <= room then Encode(n) else []
  }

  /** The count of blocks, which is written unchecked, has its byte in the buffer. */
  predicate CountFits(ranges: seq<Range>, max: nat)
    requires ranges != [] && Descending(ranges)
  {
    max >= 1 && 2 + |EncodeInto(ranges[0].end, max - 1)| < max
  }

  function IfRoom(n: nat, room: nat): seq<nat> {
    if EncodedLength(n) <= room then [n] else []
  }

  /** Type, largest, delay, count and first range, the numbers only if there is room. */
  function WrittenHeader(ackType: Byte, ranges: seq<Range>, max: nat): (b: seq<Byte>)
    requires ranges != [] && Descending(ranges) && CountFits(ranges, max)
    ensures 3 <= |b| <= max
  {
    var largest := EncodeInto(ranges[0].end, max - 1);
    [ackType] + largest + [0] + [(|ranges| - 1) % 256]
    + EncodeInto(ranges[0].end - ranges[0].start, max - 3 - |largest|)
  }

  /** The numbers of the blocks from i on that the writer gets to write, starting at an
      index of the buffer: it stops when five bytes or less remain, and leaves out a
      number for which there is no room. */
  function WrittenNumbers(ranges: seq<Range>, i: nat, index: nat, max: nat): (s: seq<nat>)
    requires 0 < i && Descending(ranges) && index <= max
    ensures Encodable(s)
    decreases |ranges| - i
  {
    if i >= |ranges| || index + 5 >= max then []
    else
      var gap := EncodeInto(Gap(ranges, i), max - index);
      var middle := index + |gap|;
      var count := EncodeInto(Count(ranges, i), max - middle);
      IfRoom(Gap(ranges, i), max - index) + IfRoom(Count(ranges, i), max - middle) +
      WrittenNumbers(ranges, i + 1, middle + |count|, max)
  }

  predicate Encodable(s: seq<nat>) {
    forall k :: 0 <= k < |s| ==> s[k] < VARINT_LIMIT
  }

  function EncodeAll(s: seq<nat>): seq<Byte>
    requires Encodable(s)
  {
    if s == [] then [] else Encode(s[0]) + EncodeAll(s[1..])
  }

  function Written(ackType: Byte, ranges: seq<Range>, max: nat): (b: seq<Byte>)
    requires ranges != [] && Descending(ranges) && CountFits(ranges, max)
    ensures b != []
  {
    var header := WrittenHeader(ackType, ranges, max);
    header + EncodeAll(WrittenNumbers(ranges, 1, |header|, max))
  }

  lemma {:induction false} EncodeAllAppend(s: seq<nat>, t: seq<nat>)
    requires Encodable(s) && Encodable(t)
    ensures EncodeAll(s + t) == EncodeAll(s) + EncodeAll(t)
  {
    hide Encode;
    if s == [] {
      assert s + t == t;
    } else {
      assert (s + t)[1..] == s[1..] + t;
      EncodeAllAppend(s[1..], t);
    }
  }

  // ----- The writer, in place -----

  /** From the index on the buffer is as it was. */
  twostate predicate RestKept(buf: array<Byte>, index: nat)
    reads buf
  {
    forall k :: index <= k < buf.Length ==> buf[k] == old(buf[k])
  }

  method WriteVarint(buf: array<Byte>, index: nat, max: nat, n: nat) returns (length: nat)
    requires index <= max <= buf.Length && n < VARINT_LIMIT
    modifies buf
    ensures length == |EncodeInto(n, max - index)|
    ensures buf[..index + length] == old(buf[..index]) + EncodeInto(n, max - index)
    ensures RestKept(buf, index + length)
  {
    length := EncodedLength(n);
    if length > max - index {
      length := 0;
    } else {
      var b := Encode(n);
      forall k | 0 <= k < length {
        buf[index + k] := b[k];
      }
      assert buf[index..index + length] == b;
    }
  }

  method WriteByte(buf: array<Byte>, index: nat, b: Byte)
    requires index < buf.Length
    modifies buf
    ensures buf[..index + 1] == old(buf[..index]) + [b] && RestKept(buf, index + 1)
  {
    buf[index] := b;
  }

  method WriteHeader(ackType: Byte, ranges: seq<Range>, buf: array<Byte>, bytesMax: nat) returns (byteIndex: nat)
    requires ranges != [] && Descending(ranges) && bytesMax <= buf.Length && CountFits(ranges, bytesMax)
    modifies buf
    ensures byteIndex == |WrittenHeader(ackType, ranges, bytesMax)|
    ensures buf[..byteIndex] == WrittenHeader(ackType, ranges, bytesMax)
    ensures RestKept(buf, byteIndex)
  {
    hide Encode, EncodeInto;
    byteIndex := 0;
    WriteByte(buf, byteIndex, ackType);
    byteIndex := byteIndex + 1;
    var l := WriteVarint(buf, byteIndex, bytesMax, ranges[0].end);
    byteIndex := byteIndex + l;
    EncodeZero(bytesMax - byteIndex);
    l := WriteVarint(buf, byteIndex, bytesMax, 0);
    byteIndex := byteIndex + l;
    WriteByte(buf, byteIndex, (|ranges| - 1) % 256);
    byteIndex := byteIndex + 1;
    var ackRange := ranges[0].end - ranges[0].start;
    l := WriteVarint(buf, byteIndex, bytesMax, ackRange);
    byteIndex := byteIndex + l;
  }

  lemma EncodeZero(room: nat)
    requires room > 0
    ensures EncodeInto(0, room) == [0]
  {
  }

  /** Fills the buffer from its start, leaving out what does not fit. All that is asked is
      that the two bytes written unchecked are in the buffer. */
  method BuildTestAck(ackType: Byte, ranges: seq<Range>, buf: array<Byte>, bytesMax: nat) returns (byteIndex: nat)
    requires ranges != [] && Descending(ranges) && bytesMax <= buf.Length && CountFits(ranges, bytesMax)
    modifies buf
    ensures byteIndex <= bytesMax
    ensures buf[..byteIndex] == Written(ackType, ranges, bytesMax)
    ensures RestKept(buf, byteIndex)
  {
    hide Encode, EncodeInto, WrittenHeader, WrittenNumbers, EncodeAll;
    byteIndex := WriteHeader(ackType, ranges, buf, bytesMax);
    ghost var whole := Written(ackType, ranges, bytesMax);
    var i := 1;
    while i < |ranges| && byteIndex + 5 < bytesMax
      invariant 1 <= i && byteIndex <= bytesMax
      invariant RestKept(buf, byteIndex)
      invariant buf[..byteIndex] + EncodeAll(WrittenNumbers(ranges, i, byteIndex, bytesMax)) == whole
      decreases |ranges| - i
    {
      NextNumbers(ranges, i, byteIndex, bytesMax);
      var gap := ranges[i - 1].start - ranges[i].end - 1;
      var l := WriteVarint(buf, byteIndex, bytesMax, gap);
      byteIndex := byteIndex + l;
      var ackRange := ranges[i].end - ranges[i].start + 1;
      assert gap == Gap(ranges, i) && ackRange == Count(ranges, i);
      l := WriteVarint(buf, byteIndex, bytesMax, ackRange);
      byteIndex := byteIndex + l;
      i := i + 1;
    }
    NoMoreNumbers(ranges, i, byteIndex, bytesMax);
    assert buf[..byteIndex] + [] == buf[..byteIndex];
  }

  lemma NextNumbers(ranges: seq<Range>, i: nat, index: nat, max: nat)
    requires 0 < i < |ranges| && Descending(ranges) && index + 5 < max
    ensures var gap := EncodeInto(Gap(ranges, i), max - index);
            var count := EncodeInto(Count(ranges, i), max - index - |gap|);
            EncodeAll(WrittenNumbers(ranges, i, index, max))
            == gap + count + EncodeAll(WrittenNumbers(ranges, i + 1, index + |gap| + |count|, max))
  {
    hide Encode, EncodeInto, IfRoom, Gap, Count, Descending, EncodeAll;
    var gap := EncodeInto(Gap(ranges, i), max - index);
    var count := EncodeInto(Count(ranges, i), max - index - |gap|);
    var g := IfRoom(Gap(ranges, i), max - index);
    var c := IfRoom(Count(ranges, i), max - index - |gap|);
    var rest := WrittenNumbers(ranges, i + 1, index + |gap| + |count|, max);
    EncodeIfRoom(Gap(ranges, i), max - index);
    EncodeIfRoom(Count(ranges, i), max - index - |gap|);
    EncodeAllAppend(g, c);
    EncodeAllAppend(g + c, rest);
  }

  lemma EncodeIfRoom(n: nat, room: nat)
    requires n < VARINT_LIMIT
    ensures Encodable(IfRoom(n, room)) && EncodeAll(IfRoom(n, room)) == EncodeInto(n, room)
  {
    hide Encode;
    assert [n][1..] == [];
    assert Encode(n) + [] == Encode(n);
  }

  lemma NoMoreNumbers(ranges: seq<Range>, i: nat, index: nat, max: nat)
    requires 0 < i && Descending(ranges) && index <= max && (i >= |ranges| || index + 5 >= max)
    ensures EncodeAll(WrittenNumbers(ranges, i, index, max)) == []
  {
  }
}
