/**
 The ACK frame of the older draft layout: largest, delay, number of blocks, first
 range, then for each block the exact number of missing packets and the count of
 packets received. What a reader makes of a frame, and what its acceptance means.
 */
module AckFrame {
  import opened Words
  import opened Varint

  // ----- The received packets as the reader marks them -----

  /** `size` packets are received, numbered down from `high`, after `gap` that are not. */
  datatype Block = Block(gap: nat, high: nat, size: nat)

  datatype Ack = Ack(largest: nat, lastRange: nat, count: nat, blocks: seq<Block>, gapEnd: nat)

  /** Packet number n falls in the block. */
  predicate Covers(b: Block, n: int) {
    b.high - b.size < n <= b.high
  }

  function Marked(mask: Mask, highest: int, range: nat): Mask {
    if range == 0 then mask else Marked(mask, highest, range - 1)[(highest - (range - 1)) % 64 := true]
  }

  lemma {:induction false} MarkedBit(mask: Mask, highest: int, range: nat, k: nat)
    requires k < 64
    ensures Marked(mask, highest, range)[k] <==> mask[k] || exists n :: highest - range < n <= highest && n % 64 == k
  {
    if range > 0 {
      MarkedBit(mask, highest, range - 1, k);
      var last := highest - (range - 1);
      assert last % 64 == k ==> exists n :: highest - range < n <= highest && n % 64 == k;
    }
  }

  function MarkAll(blocks: seq<Block>): Mask {
    if blocks == [] then EmptyMask()
    else
      var b := blocks[|blocks| - 1];
      Marked(MarkAll(blocks[..|blocks| - 1]), b.high, b.size)
  }

  ghost predicate CoveredModulo(blocks: seq<Block>, k: nat) {
    exists i, n :: 0 <= i < |blocks| && Covers(blocks[i], n) && n % 64 == k
  }

  /** Bit k of the mask is set exactly when some marked packet number is k modulo 64. */
  lemma {:induction false} MaskIsUnionModulo64(blocks: seq<Block>, k: nat)
    requires k < 64
    ensures MarkAll(blocks)[k] <==> CoveredModulo(blocks, k)
  {
    if blocks != [] {
      var earlier, b := blocks[..|blocks| - 1], blocks[|blocks| - 1];
      MaskIsUnionModulo64(earlier, k);
      MarkedBit(MarkAll(earlier), b.high, b.size, k);
      if n :| b.high - b.size < n <= b.high && n % 64 == k {
        assert Covers(blocks[|blocks| - 1], n);
      }
      if i, n :| 0 <= i < |earlier| && Covers(earlier[i], n) && n % 64 == k {
        assert Covers(blocks[i], n);
      }
      if i, n :| 0 <= i < |blocks| && Covers(blocks[i], n) && n % 64 == k {
        if i < |earlier| {
          assert Covers(earlier[i], n);
        }
      }
    }
  }

  // ----- What the reader computes -----

  datatype OneBlock = BadBlock | OneBlock(block: Block, used: nat)

  function ParseBlock(bytes: seq<Byte>, gapBegin: nat): (r: OneBlock)
    ensures r.OneBlock? ==> 2 <= r.used <= |bytes|
    ensures r.OneBlock? ==> r.block.high + r.block.gap == gapBegin && r.block.size <= r.block.high
  {
    var gap := Decode(bytes);
    if gap.Truncated? then BadBlock
    else
      var size := Decode(bytes[gap.length..]);
      if size.Truncated? || gap.value > gapBegin || size.value > gapBegin - gap.value then BadBlock
      else OneBlock(Block(gap.value, gapBegin - gap.value, size.value), gap.length + size.length)
  }

  datatype Blocks = Bad | Blocks(blocks: seq<Block>, gapEnd: nat, used: nat)

  function ParseBlocks(bytes: seq<Byte>, count: nat, gapBegin: nat): (r: Blocks)
    ensures r.Blocks? ==> r.used <= |bytes| && |r.blocks| == count
  {
    if count == 0 then Blocks([], gapBegin, 0)
    else
      var b := ParseBlock(bytes, gapBegin);
      if b.BadBlock? then Bad
      else
        var rest := ParseBlocks(bytes[b.used..], count - 1, b.block.high - b.block.size);
        if rest.Bad? then Bad else Blocks([b.block] + rest.blocks, rest.gapEnd, b.used + rest.used)
  }

  datatype Header = BadHeader | Header(largest: nat, count: nat, lastRange: nat, used: nat)

  /** Largest, delay (skipped unread), number of blocks and first range. */
  function ParseHeader(bytes: seq<Byte>): (r: Header)
    ensures r.Header? ==> r.used <= |bytes|
  {
    var largest := Decode(bytes);
    if largest.Truncated? || largest.length == |bytes| then BadHeader
    else
      var i := largest.length + LengthFrom(bytes[largest.length]);
      if i > |bytes| then BadHeader
      else
        var count := Decode(bytes[i..]);
        if count.Truncated? then BadHeader
        else
          var j := i + count.length;
          var lastRange := Decode(bytes[j..]);
          if lastRange.Truncated? then BadHeader
          else Header(largest.value, count.value, lastRange.value, j + lastRange.length)
  }

  function ParseAck(ackType: Byte, bytes: seq<Byte>): Option<Ack>
    requires bytes != []
  {
    var h := ParseHeader(bytes[1..]);
    if bytes[0] != ackType || h.BadHeader? || h.lastRange >= h.largest then None
    else
      var r := ParseBlocks(bytes[1 + h.used..], h.count, h.largest - h.lastRange - 1);
      if r.Bad? || 1 + h.used + r.used != |bytes| then None
      else Some(Ack(h.largest, h.lastRange, h.count, [Block(0, h.largest, h.lastRange + 1)] + r.blocks, r.gapEnd))
  }

  datatype ExpectedAck = ExpectedAck(highestReceived: nat, lastRange: nat, numBlocks: nat)

  /** The reader's verdict. */
  predicate Accepts(ackType: Byte, bytes: seq<Byte>, expected: ExpectedAck, mask: Mask)
    requires bytes != []
  {
    var a := ParseAck(ackType, bytes);
    && a.Some?
    && ExpectedAck(a.value.largest, a.value.lastRange, a.value.count) == expected
    && MarkAll(a.value.blocks) == mask
  }

  // ----- What acceptance means -----

  function SumBlocks(blocks: seq<Block>): nat {
    if blocks == [] then 0 else blocks[0].gap + blocks[0].size + SumBlocks(blocks[1..])
  }

  /** The blocks come one below the other and share out the numbers from top down to bottom. */
  ghost predicate Stacked(blocks: seq<Block>, top: int, bottom: int) {
    if blocks == [] then top == bottom
    else
      && blocks[0].size <= blocks[0].high && blocks[0].high + blocks[0].gap == top
      && Stacked(blocks[1..], blocks[0].high - blocks[0].size, bottom)
  }

  lemma {:induction false} ParsedBlocksStack(bytes: seq<Byte>, count: nat, gapBegin: nat)
    ensures var r := ParseBlocks(bytes, count, gapBegin);
            r.Blocks? ==> Stacked(r.blocks, gapBegin, r.gapEnd)
  {
    hide ParseBlock;
    var r := ParseBlocks(bytes, count, gapBegin);
    if r.Blocks? && count > 0 {
      var b := ParseBlock(bytes, gapBegin);
      ParsedBlocksStack(bytes[b.used..], count - 1, b.block.high - b.block.size);
      assert r.blocks[1..] == ParseBlocks(bytes[b.used..], count - 1, b.block.high - b.block.size).blocks;
    }
  }

  ghost predicate Within(b: Block, top: int, bottom: int) {
    bottom <= b.high - b.size <= b.high <= top
  }

  lemma {:induction false} StackedDescends(blocks: seq<Block>, top: int, bottom: int)
    requires Stacked(blocks, top, bottom)
    ensures top == SumBlocks(blocks) + bottom
    ensures forall i :: 0 <= i < |blocks| ==> Within(blocks[i], top, bottom)
    ensures forall i, j :: 0 <= i < j < |blocks| ==> blocks[j].high <= blocks[i].high - blocks[i].size
  {
    if blocks != [] {
      var rest := blocks[1..];
      StackedDescends(rest, blocks[0].high - blocks[0].size, bottom);
      assert forall i :: 0 < i < |blocks| ==> blocks[i] == rest[i - 1];
    }
  }

  /** Of an accepted frame every marked number lies between 1 and the largest, no
      number is marked twice, later blocks lie below earlier ones, and every number
      up to the largest is accounted for: received, missing between blocks, or below
      the last block. */
  lemma AcceptedFrame(ackType: Byte, bytes: seq<Byte>)
    requires bytes != [] && ParseAck(ackType, bytes).Some?
    ensures var a := ParseAck(ackType, bytes).value;
            && |a.blocks| == a.count + 1
            && a.blocks[0] == Block(0, a.largest, a.lastRange + 1)
            && a.largest == (a.lastRange + 1) + SumBlocks(a.blocks[1..]) + a.gapEnd
            && (forall i, n :: 0 <= i < |a.blocks| && Covers(a.blocks[i], n) ==> 1 <= a.gapEnd + 1 <= n <= a.largest)
            && (forall i, j, m, n ::
                  0 <= i < j < |a.blocks| && Covers(a.blocks[i], m) && Covers(a.blocks[j], n) ==> n < m)
  {
    hide ParseHeader, ParseBlocks;
    var a := ParseAck(ackType, bytes).value;
    var h := ParseHeader(bytes[1..]);
    ParsedBlocksStack(bytes[1 + h.used..], h.count, h.largest - h.lastRange - 1);
    assert a.blocks[1..] == ParseBlocks(bytes[1 + h.used..], h.count, h.largest - h.lastRange - 1).blocks;
    StackedDescends(a.blocks, a.largest, a.gapEnd);
    assert forall i :: 0 <= i < |a.blocks| ==> Within(a.blocks[i], a.largest, a.gapEnd);
  }
}
