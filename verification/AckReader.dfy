/** The reader of ACK frames, step by step over an index into the bytes. */
module AckReader {
  import opened Words
  import opened Varint
  import opened AckFrame
  import opened AckVerdict

  const WORD_MAX: nat := 0xFFFF_FFFF_FFFF_FFFF

  /** Counting down past zero wraps around the word, which keeps step modulo 64. */
  lemma OneDown(highest: nat, n: int)
    requires highest % 64 == n % 64
    ensures (if highest == 0 then WORD_MAX else highest - 1) % 64 == (n - 1) % 64
  {
    var q := n / 64;
    assert n == 64 * q + n % 64;
  }

  /** Sets the bits of `range` packet numbers from the highest down. */
  method AckRangeMask(mask0: Mask, highest0: nat, range: nat) returns (mask: Mask)
    ensures mask == Marked(mask0, highest0, range)
  {
    mask := mask0;
    var highest: nat := highest0;
    for i := 0 to range
      invariant mask == Marked(mask0, highest0, i)
      invariant highest % 64 == (highest0 - i) % 64
    {
      mask := mask[highest % 64 := true];
      OneDown(highest, highest0 - i);
      highest := if highest == 0 then WORD_MAX else highest - 1;
    }
  }

  /** Decodes at the index, unless the bytes are used up; a length of zero means failure. */
  method DecodeAt(bytes: seq<Byte>, byteIndex: nat) returns (length: nat, value: nat)
    ensures length == 0 <==> byteIndex >= |bytes| || Decode(bytes[byteIndex..]).Truncated?
    ensures length > 0 ==> byteIndex + length <= |bytes| && Decode(bytes[byteIndex..]) == Decoded(value, length)
  {
    length, value := 0, 0;
    if byteIndex < |bytes| {
      var d := Decode(bytes[byteIndex..]);
      if d.Decoded? {
        length, value := d.length, d.value;
      }
    }
  }

  method ReadHeader(bytes: seq<Byte>) returns (ok: bool, largest: nat, numBlock: nat, lastRange: nat, byteIndex: nat)
    requires bytes != []
    ensures byteIndex >= 1
    ensures ParseHeader(bytes[1..]) == if ok then Header(largest, numBlock, lastRange, byteIndex - 1) else BadHeader
    ensures ok ==> byteIndex <= |bytes|
  {
    hide Decode;
    byteIndex := 1;
    var lLargest, lDelay, lNumBlock, lLastRange := 0, 0, 0, 0;
    lLargest, largest := DecodeAt(bytes, byteIndex);
    byteIndex := byteIndex + lLargest;
    if byteIndex < |bytes| {
      lDelay := LengthFrom(bytes[byteIndex]);
      byteIndex := byteIndex + lDelay;
    }
    lNumBlock, numBlock := DecodeAt(bytes, byteIndex);
    byteIndex := byteIndex + lNumBlock;
    lLastRange, lastRange := DecodeAt(bytes, byteIndex);
    byteIndex := byteIndex + lLastRange;
    ok := lLargest != 0 && lDelay != 0 && lNumBlock != 0 && lLastRange != 0 && byteIndex <= |bytes|;
    if lLargest != 0 {
      var tail := bytes[1..];
      assert bytes[1 + lLargest..] == tail[lLargest..];
      if lDelay != 0 && 1 + lLargest + lDelay <= |bytes| {
        assert bytes[1 + lLargest + lDelay..] == tail[lLargest + lDelay..];
        if lNumBlock != 0 {
          assert bytes[1 + lLargest + lDelay + lNumBlock..] == tail[lLargest + lDelay + lNumBlock..];
        }
      }
    }
  }

  method ReadBlock(bytes: seq<Byte>, byteIndex0: nat, gapBegin0: nat)
    returns (ret: int, byteIndex: nat, gapBegin: nat, ackRange: nat)
    requires byteIndex0 <= |bytes|
    ensures ret == 0 <==> ParseBlock(bytes[byteIndex0..], gapBegin0).OneBlock?
    ensures ret == 0 ==>
              var b := ParseBlock(bytes[byteIndex0..], gapBegin0);
              && gapBegin == b.block.high && ackRange == b.block.size && byteIndex == byteIndex0 + b.used
  {
    hide Decode;
    ret, byteIndex, gapBegin, ackRange := 0, byteIndex0, gapBegin0, 0;
    var lGap, gap := DecodeAt(bytes, byteIndex);
    byteIndex := byteIndex + lGap;
    var lRange;
    lRange, ackRange := DecodeAt(bytes, byteIndex);
    byteIndex := byteIndex + lRange;
    assert bytes[byteIndex0..][lGap..] == bytes[byteIndex0 + lGap..];
    if lGap == 0 || lRange == 0 {
      ret := -1;
    } else if gap > gapBegin {
      ret := -1;
    } else {
      gapBegin := gapBegin - gap;
      if gapBegin < ackRange {
        ret := -1;
      }
    }
  }

  /** Where the reader stands in the blocks: what it has read and what remains to be
      read make up the whole. */
  ghost predicate Reading(whole: Blocks, rest: Blocks, done: seq<Block>, used: nat) {
    if rest.Bad? then whole.Bad?
    else whole == Blocks(done + rest.blocks, rest.gapEnd, used + rest.used)
  }

  lemma ReadingOneMore(whole: Blocks, bytes: seq<Byte>, count: nat, gapBegin: nat, done: seq<Block>, used: nat)
    requires count > 0 && Reading(whole, ParseBlocks(bytes, count, gapBegin), done, used)
    ensures var b := ParseBlock(bytes, gapBegin);
            if b.BadBlock? then whole.Bad?
            else
              var rest := ParseBlocks(bytes[b.used..], count - 1, b.block.high - b.block.size);
              Reading(whole, rest, done + [b.block], used + b.used)
  {
    hide ParseBlock;
    var b := ParseBlock(bytes, gapBegin);
    if b.OneBlock? {
      var rest := ParseBlocks(bytes[b.used..], count - 1, b.block.high - b.block.size);
      if rest.Blocks? {
        assert done + ([b.block] + rest.blocks) == (done + [b.block]) + rest.blocks;
      }
    }
  }

  lemma ReadingStarts(whole: Blocks)
    ensures Reading(whole, whole, [], 0)
  {
    if whole.Blocks? {
      assert [] + whole.blocks == whole.blocks;
    }
  }

  lemma ReadingEnds(whole: Blocks, bytes: seq<Byte>, gapBegin: nat, done: seq<Block>, used: nat)
    requires Reading(whole, ParseBlocks(bytes, 0, gapBegin), done, used)
    ensures whole == Blocks(done, gapBegin, used)
  {
    assert done + [] == done;
  }

  lemma MarkOneMore(blocks: seq<Block>, b: Block)
    ensures MarkAll(blocks + [b]) == Marked(MarkAll(blocks), b.high, b.size)
  {
    assert (blocks + [b])[..|blocks|] == blocks;
  }

  /** Marks the blocks one by one. However many blocks are claimed, the loop ends, since
      every block it goes past has used up bytes. */
  method ReadBlocks(bytes: seq<Byte>, start: nat, numBlock: nat, gapBegin0: nat, mask0: Mask, ghost marked: seq<Block>)
    returns (ret: int, byteIndex: nat, mask: Mask)
    requires start <= |bytes| && mask0 == MarkAll(marked)
    ensures var whole := ParseBlocks(bytes[start..], numBlock, gapBegin0);
            && (ret == 0 <==> whole.Blocks?)
            && (ret == 0 ==> byteIndex == start + whole.used && mask == MarkAll(marked + whole.blocks))
  {
    hide ParseBlock, ParseBlocks, Reading, MarkAll, Marked;
    ret, byteIndex, mask := 0, start, mask0;
    var gapBegin, i := gapBegin0, 0;
    ghost var whole := ParseBlocks(bytes[start..], numBlock, gapBegin0);
    ghost var done: seq<Block> := [];
    assert marked + done == marked;
    ReadingStarts(whole);
    while ret == 0 && i < numBlock
      invariant start <= byteIndex <= |bytes| && i <= numBlock
      invariant if ret == 0 then
                  Reading(whole, ParseBlocks(bytes[byteIndex..], numBlock - i, gapBegin), done, byteIndex - start)
                else whole.Bad?
      invariant ret == 0 ==> mask == MarkAll(marked + done)
      decreases |bytes| - byteIndex, ret == 0
    {
      ReadingOneMore(whole, bytes[byteIndex..], numBlock - i, gapBegin, done, byteIndex - start);
      ghost var b := ParseBlock(bytes[byteIndex..], gapBegin);
      var next, high, ackRange;
      ret, next, high, ackRange := ReadBlock(bytes, byteIndex, gapBegin);
      if ret == 0 {
        assert bytes[byteIndex..][b.used..] == bytes[next..];
        byteIndex := next;
        mask := AckRangeMask(mask, high, ackRange);
        MarkOneMore(marked + done, b.block);
        assert marked + (done + [b.block]) == marked + done + [b.block];
        done := done + [b.block];
        gapBegin := high - ackRange;
        i := i + 1;
      }
    }
    if ret == 0 {
      ReadingEnds(whole, bytes[byteIndex..], gapBegin, done, byteIndex - start);
    }
  }

  /** The reader's verdict is zero exactly when the frame parses to the end and shows
      the expected numbers and mask: that is, when it is made of numbers that do. */
  method BasicAckParse(ackType: Byte, bytes: seq<Byte>, expected: ExpectedAck, expectedMask: Mask) returns (ret: int)
    requires bytes != []
    ensures ret == 0 || ret == -1
    ensures ret == 0 <==> Accepts(ackType, bytes, expected, expectedMask)
    ensures ret == 0 <==> Verdict(ackType, bytes, expected, expectedMask)
  {
    hide ParseHeader, ParseBlocks, Verdict;
    AcceptsIsVerdict(ackType, bytes, expected, expectedMask);
    ret := 0;
    if bytes[0] != ackType {
      return -1;
    }
    var ok, largest, numBlock, lastRange, byteIndex := ReadHeader(bytes);
    if !ok || lastRange >= largest {
      return -1;
    }
    var first := Block(0, largest, lastRange + 1);
    var mask := AckRangeMask(EmptyMask(), largest, lastRange + 1);
    MarkOneMore([], first);
    assert [] + [first] == [first];
    var start := byteIndex;
    ret, byteIndex, mask := ReadBlocks(bytes, start, numBlock, largest - lastRange - 1, mask, [first]);
    if ret == 0 && byteIndex != |bytes| {
      ret := -1;
    }
    if ret == 0 &&
       (largest != expected.highestReceived || lastRange != expected.lastRange || numBlock != expected.numBlocks)
    {
      ret := -1;
    }
    if ret == 0 && mask != expectedMask {
      ret := -1;
    }
    if ret != 0 {
      ret := -1;
    }
  }

}
