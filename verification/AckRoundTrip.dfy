/** The reader accepts what the writer wrote, and exactly when. */
module AckRoundTrip {
  import opened Words
  import opened Varint
  import opened AckFrame
  import opened AckVerdict
  import opened AckWriter

  // ----- What should be read back -----

  /** The ranges from i on as the reader's blocks. */
  function BlocksOf(ranges: seq<Range>, i: nat): (s: seq<Block>)
    requires 0 < i && Descending(ranges)
    decreases |ranges| - i
  {
    if i >= |ranges| then []
    else [Block(Gap(ranges, i), ranges[i].end, Count(ranges, i))] + BlocksOf(ranges, i + 1)
  }

  predicate Holds(r: Range, n: int) {
    r.start <= n <= r.end
  }

  function AllBlocksOf(ranges: seq<Range>): (s: seq<Block>)
    requires ranges != [] && Descending(ranges)
  {
    [Block(0, ranges[0].end, ranges[0].end - ranges[0].start + 1)] + BlocksOf(ranges, 1)
  }

  function ExpectedOf(ranges: seq<Range>): ExpectedAck
    requires ranges != [] && Descending(ranges)
  {
    ExpectedAck(ranges[0].end, ranges[0].end - ranges[0].start, |ranges| - 1)
  }

  lemma {:induction false} BlocksOfAt(ranges: seq<Range>, i: nat)
    requires 0 < i <= |ranges| && Descending(ranges)
    ensures var s := BlocksOf(ranges, i);
            && |s| == |ranges| - i
            && forall k :: 0 <= k < |s| ==> s[k] == Block(Gap(ranges, i + k), ranges[i + k].end, Count(ranges, i + k))
    decreases |ranges| - i
  {
    hide Gap, Count;
    if i < |ranges| {
      BlocksOfAt(ranges, i + 1);
      var s, rest := BlocksOf(ranges, i), BlocksOf(ranges, i + 1);
      assert s == [Block(Gap(ranges, i), ranges[i].end, Count(ranges, i))] + rest;
    }
  }

  /** The expected mask has bit k set exactly when a number of some range is k modulo 64. */
  lemma ExpectedMaskIsUnion(ranges: seq<Range>, k: nat)
    requires ranges != [] && Descending(ranges) && k < 64
    ensures MarkAll(AllBlocksOf(ranges))[k]
       <==> exists i, n :: 0 <= i < |ranges| && Holds(ranges[i], n) && n % 64 == k
  {
    hide Gap;
    var blocks := AllBlocksOf(ranges);
    BlocksOfAt(ranges, 1);
    MaskIsUnionModulo64(blocks, k);
    assert forall i, n :: 0 <= i < |ranges| ==> (Covers(blocks[i], n) <==> Holds(ranges[i], n));
    if CoveredModulo(blocks, k) {
      var i, n :| 0 <= i < |blocks| && Covers(blocks[i], n) && n % 64 == k;
      assert Holds(ranges[i], n);
    }
    if i, n :| 0 <= i < |ranges| && Holds(ranges[i], n) && n % 64 == k {
      assert Covers(blocks[i], n);
    }
  }

  // ----- What fits in the buffer -----

  /** Nothing is left out from range i on: every pair of numbers starts with more than
      five bytes of room, and each number has the room it needs. */
  predicate Fits(ranges: seq<Range>, i: nat, index: nat, max: nat)
    requires 0 < i && Descending(ranges)
    decreases |ranges| - i
  {
    i >= |ranges| ||
    var next := index + EncodedLength(Gap(ranges, i)) + EncodedLength(Count(ranges, i));
    index + 5 < max && next <= max && Fits(ranges, i + 1, next, max)
  }

  function AllNumbers(ranges: seq<Range>, i: nat): (s: seq<nat>)
    requires 0 < i && Descending(ranges)
    ensures Encodable(s) && (i <= |ranges| ==> |s| == 2 * (|ranges| - i))
    decreases |ranges| - i
  {
    if i >= |ranges| then [] else [Gap(ranges, i), Count(ranges, i)] + AllNumbers(ranges, i + 1)
  }

  lemma WrittenStep(ranges: seq<Range>, i: nat, index: nat, max: nat)
    requires 0 < i < |ranges| && Descending(ranges) && index + 5 < max
    ensures var gap, count := Gap(ranges, i), Count(ranges, i);
            var middle := index + |EncodeInto(gap, max - index)|;
            WrittenNumbers(ranges, i, index, max)
            == IfRoom(gap, max - index) + IfRoom(count, max - middle)
               + WrittenNumbers(ranges, i + 1, middle + |EncodeInto(count, max - middle)|, max)
  {
    hide EncodedLength, EncodeInto, IfRoom, Gap, Count, Descending;
  }

  lemma FitsStep(ranges: seq<Range>, i: nat, index: nat, max: nat)
    requires 0 < i < |ranges| && Descending(ranges)
    ensures var next := index + EncodedLength(Gap(ranges, i)) + EncodedLength(Count(ranges, i));
            && (Fits(ranges, i, index, max) <==> index + 5 < max && next <= max && Fits(ranges, i + 1, next, max))
            && AllNumbers(ranges, i) == [Gap(ranges, i), Count(ranges, i)] + AllNumbers(ranges, i + 1)
  {
    hide EncodedLength, Gap, Count, Descending;
  }

  lemma NothingWritten(ranges: seq<Range>, i: nat, index: nat, max: nat)
    requires 0 < i <= |ranges| && Descending(ranges) && index <= max && (i == |ranges| || index + 5 >= max)
    ensures WrittenNumbers(ranges, i, index, max) == []
    ensures i == |ranges| ==> Fits(ranges, i, index, max) && AllNumbers(ranges, i) == []
    ensures i < |ranges| ==> !Fits(ranges, i, index, max)
  {
  }

  /** The writer writes everything when everything fits, and too few numbers otherwise. */
  lemma {:induction false} WrittenWhenFits(ranges: seq<Range>, i: nat, index: nat, max: nat)
    requires 0 < i <= |ranges| && Descending(ranges) && index <= max
    ensures Fits(ranges, i, index, max) ==> WrittenNumbers(ranges, i, index, max) == AllNumbers(ranges, i)
    ensures !Fits(ranges, i, index, max) ==> |WrittenNumbers(ranges, i, index, max)| < 2 * (|ranges| - i)
    decreases |ranges| - i
  {
    hide EncodedLength, EncodeInto, IfRoom, Gap, Count, Descending, Fits, WrittenNumbers, AllNumbers;
    if i < |ranges| && index + 5 < max {
      var gap, count := Gap(ranges, i), Count(ranges, i);
      WrittenStep(ranges, i, index, max);
      FitsStep(ranges, i, index, max);
      RoomOrNot(gap, max - index);
      var middle := index + |EncodeInto(gap, max - index)|;
      RoomOrNot(count, max - middle);
      WrittenWhenFits(ranges, i + 1, middle + |EncodeInto(count, max - middle)|, max);
      assert [gap] + [count] == [gap, count];
    } else {
      NothingWritten(ranges, i, index, max);
    }
  }

  lemma RoomOrNot(n: nat, room: nat)
    requires n < VARINT_LIMIT
    ensures if EncodedLength(n) <= room then IfRoom(n, room) == [n] && |EncodeInto(n, room)| == EncodedLength(n)
            else IfRoom(n, room) == [] && EncodeInto(n, room) == []
  {
    hide Encode;
  }

  lemma {:induction false} LargeBufferFits(ranges: seq<Range>, i: nat, index: nat, max: nat)
    requires 0 < i <= |ranges| && Descending(ranges)
    requires index + 16 * (|ranges| - i) <= max
    ensures Fits(ranges, i, index, max)
    decreases |ranges| - i
  {
    if i < |ranges| {
      LargeBufferFits(ranges, i + 1, index + EncodedLength(Gap(ranges, i)) + EncodedLength(Count(ranges, i)), max);
    }
  }

  // ----- Reading back -----

  lemma DecodeFirst(s: seq<nat>)
    requires s != [] && Encodable(s)
    ensures Decode(EncodeAll(s)) == Decoded(s[0], EncodedLength(s[0]))
    ensures EncodeAll(s)[EncodedLength(s[0])..] == EncodeAll(s[1..])
  {
    hide Encode, Decode;
    DecodeEncode(s[0], EncodeAll(s[1..]));
  }

  /** Reading two numbers as a block. */
  lemma ReadTwo(s: seq<nat>, gapBegin: nat)
    requires |s| >= 2 && Encodable(s)
    ensures ParseBlock(EncodeAll(s), gapBegin)
         == if s[0] > gapBegin || s[1] > gapBegin - s[0] then BadBlock
            else OneBlock(Block(s[0], gapBegin - s[0], s[1]), EncodedLength(s[0]) + EncodedLength(s[1]))
    ensures EncodedLength(s[0]) + EncodedLength(s[1]) <= |EncodeAll(s)|
    ensures EncodeAll(s)[EncodedLength(s[0]) + EncodedLength(s[1])..] == EncodeAll(s[2..])
  {
    hide Encode, Decode, EncodeAll;
    DecodeFirst(s);
    DecodeFirst(s[1..]);
    assert s[1..][1..] == s[2..];
    var b := EncodeAll(s);
    assert b[EncodedLength(s[0])..][EncodedLength(s[1])..] == b[EncodedLength(s[0]) + EncodedLength(s[1])..];
  }

  /** All the numbers of descending ranges read back as their blocks, unless the lowest
      range reaches down to packet number zero. */
  lemma {:induction false} ReadAllNumbers(ranges: seq<Range>, i: nat)
    requires 0 < i <= |ranges| && Descending(ranges) && ranges[i - 1].start >= 1
    ensures var bytes := EncodeAll(AllNumbers(ranges, i));
            ParseBlocks(bytes, |ranges| - i, ranges[i - 1].start - 1)
            == if ranges[|ranges| - 1].start >= 1 then
                 Blocks(BlocksOf(ranges, i), ranges[|ranges| - 1].start - 1, |bytes|)
               else Bad
    decreases |ranges| - i
  {
    hide Encode, Decode, ParseBlock, EncodeAll;
    if i == |ranges| {
      EncodeNothing();
    } else {
      var s := AllNumbers(ranges, i);
      assert s[2..] == AllNumbers(ranges, i + 1);
      ReadTwo(s, ranges[i - 1].start - 1);
      if i + 1 < |ranges| {
        HigherStartsAboveZero(ranges, i);
      }
      if ranges[i].start >= 1 {
        ReadAllNumbers(ranges, i + 1);
        assert ranges[i].end - Count(ranges, i) == ranges[i].start - 1;
      }
    }
  }

  lemma EncodeNothing()
    ensures EncodeAll([]) == []
  {
  }

  /** Only the lowest range can reach packet number zero. */
  lemma HigherStartsAboveZero(ranges: seq<Range>, i: nat)
    requires i + 1 < |ranges| && Descending(ranges)
    ensures ranges[i].start >= 1
  {
    assert ranges[i + 1].end < ranges[i].start;
  }

  /** Blocks read from encoded numbers to their end use two numbers each. */
  lemma {:induction false} TwoNumbersPerBlock(s: seq<nat>, count: nat, gapBegin: nat)
    requires Encodable(s)
    requires var r := ParseBlocks(EncodeAll(s), count, gapBegin); r.Blocks? && r.used == |EncodeAll(s)|
    ensures |s| == 2 * count
    decreases count
  {
    hide Encode, ParseBlock;
    if |s| == 0 {
      NothingToParse(gapBegin);
    } else if |s| == 1 {
      assert s == [s[0]];
      OneNumberIsNoBlock(s[0], gapBegin);
    } else if count > 0 {
      ReadTwo(s, gapBegin);
      var b := ParseBlock(EncodeAll(s), gapBegin);
      TwoNumbersPerBlock(s[2..], count - 1, b.block.high - b.block.size);
    }
  }

  lemma NothingToParse(gapBegin: nat)
    ensures ParseBlock([], gapBegin).BadBlock?
  {
  }

  lemma OneNumberIsNoBlock(n: nat, gapBegin: nat)
    requires n < VARINT_LIMIT
    ensures ParseBlock(EncodeAll([n]), gapBegin).BadBlock?
  {
    hide Encode, Decode;
    DecodeFirst([n]);
    assert [n][1..] == [];
    assert Decode([]).Truncated? by {
      DecodeNothing();
    }
  }

  lemma DecodeNothing()
    ensures Decode([]).Truncated?
  {
  }

  /** What the reader makes of a header: largest, delay and count are read back, and the
      first range is whatever number comes next. */
  lemma ReadHeader(largest: nat, count: Byte, tail: seq<Byte>)
    requires largest < VARINT_LIMIT && count < 64
    ensures var first := Decode(tail);
            ParseHeader(Encode(largest) + [0, count] + tail)
            == if first.Truncated? then BadHeader
               else Header(largest, count, first.value, EncodedLength(largest) + 2 + first.length)
  {
    hide Encode, Decode, ParseHeader;
    SmallNumbers(0);
    SmallNumbers(count);
    HeaderSkipsDelay(largest, 0, count, tail);
    assert Encode(largest) + [0, count] + tail == Encode(largest) + Encode(0) + Encode(count) + tail;
  }

  lemma SmallNumbers(n: nat)
    requires n < 64
    ensures Encode(n) == [n] && EncodedLength(n) == 1
  {
    assert n / 256 == 0 && ToBigEndian(n, 1) == [n];
  }

  // ----- What was left out of the header -----

  /** The largest number is left out: the reader takes the delay, zero, for it. */
  lemma LargestLeftOut(ackType: Byte, ranges: seq<Range>, max: nat)
    requires 1 <= |ranges| <= 64 && Descending(ranges) && CountFits(ranges, max)
    requires EncodedLength(ranges[0].end) > max - 1
    ensures ParseAck(ackType, Written(ackType, ranges, max)).None?
  {
    hide EncodeAll, WrittenNumbers, ParseBlocks, Decode, Encode;
    var bytes := Written(ackType, ranges, max);
    var rest := bytes[2..];
    SmallNumbers(0);
    assert bytes[1..] == Encode(0) + rest;
    DecodeEncode(0, rest);
  }

  /** The first number written after the header fits in the room that was left. */
  lemma {:induction false} FirstNumberFits(ranges: seq<Range>, i: nat, index: nat, max: nat)
    requires 0 < i && Descending(ranges) && index <= max
    ensures var s := WrittenNumbers(ranges, i, index, max);
            s != [] ==> EncodedLength(s[0]) <= max - index
    decreases |ranges| - i
  {
    hide Encode, EncodeInto, Gap, Count, Descending;
    if i < |ranges| && index + 5 < max {
      var gap, count := Gap(ranges, i), Count(ranges, i);
      RoomOrNot(gap, max - index);
      var middle := index + |EncodeInto(gap, max - index)|;
      RoomOrNot(count, max - middle);
      FirstNumberFits(ranges, i + 1, middle + |EncodeInto(count, max - middle)|, max);
    }
  }

  /** The first range is left out: the reader takes a shorter number for it, or finds none. */
  lemma FirstRangeLeftOut(ackType: Byte, ranges: seq<Range>, max: nat)
    requires 1 <= |ranges| <= 64 && Descending(ranges) && CountFits(ranges, max)
    requires EncodedLength(ranges[0].end) <= max - 1
    requires EncodedLength(ranges[0].end - ranges[0].start) > max - 3 - EncodedLength(ranges[0].end)
    ensures var a := ParseAck(ackType, Written(ackType, ranges, max));
            a.None? || a.value.lastRange != ranges[0].end - ranges[0].start
  {
    hide Encode, Decode, EncodeAll, WrittenNumbers, ParseBlocks, ParseHeader;
    var index := 3 + EncodedLength(ranges[0].end);
    var numbers := WrittenNumbers(ranges, 1, index, max);
    var bytes := Written(ackType, ranges, max);
    assert bytes[1..] == Encode(ranges[0].end) + [0, |ranges| - 1] + EncodeAll(numbers);
    ReadHeader(ranges[0].end, |ranges| - 1, EncodeAll(numbers));
    if numbers == [] {
      EncodeNothing();
      DecodeNothing();
    } else {
      FirstNumberFits(ranges, 1, index, max);
      DecodeFirst(numbers);
    }
  }

  /** Everything fits in the buffer. */
  predicate AllFits(ranges: seq<Range>, max: nat)
    requires ranges != [] && Descending(ranges)
  {
    var header := 3 + EncodedLength(ranges[0].end) + EncodedLength(ranges[0].end - ranges[0].start);
    header <= max && Fits(ranges, 1, header, max)
  }

  /** With a whole header, the blocks decide. */
  lemma WholeHeader(ackType: Byte, ranges: seq<Range>, max: nat)
    requires 1 <= |ranges| <= 64 && Descending(ranges) && CountFits(ranges, max)
    requires var header := 3 + EncodedLength(ranges[0].end) + EncodedLength(ranges[0].end - ranges[0].start);
             header <= max
    ensures Accepts(ackType, Written(ackType, ranges, max), ExpectedOf(ranges), MarkAll(AllBlocksOf(ranges)))
       <==> AllFits(ranges, max) && ranges[|ranges| - 1].start >= 1
  {
    hide Encode, Decode, ParseHeader, ParseBlocks, ParseBlock, EncodeAll, WrittenNumbers, AllNumbers, Fits, MarkAll;
    hide BlocksOf;
    var first := ranges[0].end - ranges[0].start;
    var index := 3 + EncodedLength(ranges[0].end) + EncodedLength(first);
    var numbers := WrittenNumbers(ranges, 1, index, max);
    var bytes := Written(ackType, ranges, max);
    var blocks := EncodeAll(numbers);
    assert bytes[1..] == Encode(ranges[0].end) + [0, |ranges| - 1] + (Encode(first) + blocks);
    ReadHeader(ranges[0].end, |ranges| - 1, Encode(first) + blocks);
    DecodeEncode(first, blocks);
    assert bytes[0] == ackType && bytes[index..] == blocks;
    WrittenWhenFits(ranges, 1, index, max);
    if |ranges| > 1 {
      HigherStartsAboveZero(ranges, 0);
    }
    if ranges[0].start >= 1 {
      if Fits(ranges, 1, index, max) {
        ReadAllNumbers(ranges, 1);
      } else {
        var r := ParseBlocks(blocks, |ranges| - 1, ranges[0].start - 1);
        if r.Blocks? && r.used == |blocks| {
          TwoNumbersPerBlock(numbers, |ranges| - 1, ranges[0].start - 1);
        }
      }
    }
  }

  /** The reader accepts the frame the writer made of descending ranges, with the
      mask of their union, exactly when nothing was left out for lack of room and
      packet number zero is not among the ranges. */
  lemma ReaderAcceptsWriter(ackType: Byte, ranges: seq<Range>, max: nat)
    requires 1 <= |ranges| <= 64 && Descending(ranges) && CountFits(ranges, max)
    ensures Accepts(ackType, Written(ackType, ranges, max), ExpectedOf(ranges), MarkAll(AllBlocksOf(ranges)))
       <==> AllFits(ranges, max) && ranges[|ranges| - 1].start >= 1
  {
    hide Written, MarkAll, AllBlocksOf, Fits, ParseAck, EncodedLength, CountFits;
    if EncodedLength(ranges[0].end) > max - 1 {
      LargestLeftOut(ackType, ranges, max);
    } else if EncodedLength(ranges[0].end - ranges[0].start) > max - 3 - EncodedLength(ranges[0].end) {
      FirstRangeLeftOut(ackType, ranges, max);
    } else {
      WholeHeader(ackType, ranges, max);
    }
  }

  /** With room for the longest header and sixteen more bytes per range, only packet
      number zero stands in the way. */
  lemma RoomyBufferRoundTrip(ackType: Byte, ranges: seq<Range>, max: nat)
    requires 1 <= |ranges| <= 64 && Descending(ranges) && 19 + 16 * (|ranges| - 1) <= max
    ensures CountFits(ranges, max)
    ensures Accepts(ackType, Written(ackType, ranges, max), ExpectedOf(ranges), MarkAll(AllBlocksOf(ranges)))
       <==> ranges[|ranges| - 1].start >= 1
  {
    hide Accepts, Written, MarkAll, AllBlocksOf, Fits, Encode;
    var header := 3 + EncodedLength(ranges[0].end) + EncodedLength(ranges[0].end - ranges[0].start);
    LargeBufferFits(ranges, 1, header, max);
    ReaderAcceptsWriter(ackType, ranges, max);
  }
}
