/**
 What the reader of ACK frames accepts, told from the numbers a frame is made of and
 without following the reader: a frame of any encodings, shortest or not.
 */
module AckVerdict {
  import opened Words
  import opened Varint
  import opened AckFrame

  /** The bytes as numbers one after the other, if they are just that. */
  function Numbers(bytes: seq<Byte>): Option<seq<nat>> {
    if bytes == [] then Some([])
    else
      var d := Decode(bytes);
      if d.Truncated? then None
      else
        var rest := Numbers(bytes[d.length..]);
        if rest.None? then None else Some([d.value] + rest.value)
  }

  function Sum(s: seq<nat>): nat {
    if s == [] then 0 else s[0] + Sum(s[1..])
  }

  /** Largest, delay, count and first range, then a gap and a size for every block counted;
      all ranges and gaps together leave packet number zero alone. */
  predicate Describes(s: seq<nat>) {
    |s| >= 4 && |s| == 4 + 2 * s[2] && s[3] + 1 + Sum(s[4..]) <= s[0]
  }

  /** The highest number of block i after the first range. */
  function Top(s: seq<nat>, i: nat): int
    requires Describes(s) && i < s[2]
  {
    s[0] - s[3] - 1 - Sum(s[4..5 + 2 * i])
  }

  ghost predicate Received(s: seq<nat>, n: int)
    requires Describes(s)
  {
    s[0] - s[3] <= n <= s[0] || exists i: nat :: i < s[2] && Top(s, i) - s[5 + 2 * i] < n <= Top(s, i)
  }

  /** The numbers show what is expected, and the mask has exactly the bits of the numbers received. */
  ghost predicate VerdictOf(s: seq<nat>, expected: ExpectedAck, mask: Mask) {
    && Describes(s)
    && expected == ExpectedAck(s[0], s[3], s[2])
    && forall k :: 0 <= k < 64 ==> (mask[k] <==> exists n :: Received(s, n) && n % 64 == k)
  }

  /** The frame is made of such numbers and nothing else. */
  ghost predicate Verdict(ackType: Byte, bytes: seq<Byte>, expected: ExpectedAck, mask: Mask) {
    && bytes != [] && bytes[0] == ackType
    && var s := Numbers(bytes[1..]);
       s.Some? && VerdictOf(s.value, expected, mask)
  }

  // ----- One number after the other -----

  function Prefixed(first: seq<nat>, rest: Option<seq<nat>>): Option<seq<nat>> {
    if rest.None? then None else Some(first + rest.value)
  }

  lemma PrefixedTwice(first: seq<nat>, second: seq<nat>, rest: Option<seq<nat>>)
    ensures Prefixed(first, Prefixed(second, rest)) == Prefixed(first + second, rest)
  {
    if rest.Some? {
      assert first + (second + rest.value) == first + second + rest.value;
    }
  }

  lemma PrefixedLength(first: seq<nat>, rest: Option<seq<nat>>, n: nat)
    requires rest.None? || |rest.value| < n
    ensures Prefixed(first, rest).None? || |Prefixed(first, rest).value| < |first| + n
  {
  }

  lemma NumbersStep(bytes: seq<Byte>)
    ensures var d := Decode(bytes);
            Numbers(bytes) == if d.Decoded? then Prefixed([d.value], Numbers(bytes[d.length..]))
                              else if bytes == [] then Some([])
                              else None
  {
    hide Decode;
  }

  /** Two numbers at the start, of the given values and lengths together. */
  lemma TwoAtStart(bytes: seq<Byte>, d: Decoded, e: Decoded)
    requires d.Decoded? && e.Decoded? && Decode(bytes) == d && Decode(bytes[d.length..]) == e
    ensures Numbers(bytes) == Prefixed([d.value, e.value], Numbers(bytes[d.length + e.length..]))
  {
    hide Decode, Numbers, Prefixed;
    var more := bytes[d.length..];
    NumbersStep(bytes);
    NumbersStep(more);
    var rest := bytes[d.length + e.length..];
    assert more[e.length..] == rest;
    PrefixedTwice([d.value], [e.value], Numbers(rest));
    assert [d.value] + [e.value] == [d.value, e.value];
  }

  lemma OneAtStart(bytes: seq<Byte>)
    requires var d := Decode(bytes); d.Truncated? || Decode(bytes[d.length..]).Truncated?
    ensures Numbers(bytes).None? || |Numbers(bytes).value| < 2
  {
    hide Decode, Numbers, Prefixed;
    NumbersStep(bytes);
    var d := Decode(bytes);
    if d.Decoded? {
      var more := bytes[d.length..];
      NumbersStep(more);
      PrefixedLength([d.value], Numbers(more), 1);
    }
  }

  lemma TwoNumbers(bytes: seq<Byte>)
    ensures var d := Decode(bytes);
            var e := if d.Decoded? then Decode(bytes[d.length..]) else Truncated;
            if e.Decoded? then
              Numbers(bytes) == Prefixed([d.value, e.value], Numbers(bytes[d.length + e.length..]))
            else
              Numbers(bytes).None? || |Numbers(bytes).value| < 2
  {
    hide Decode, Numbers, Prefixed;
    var d := Decode(bytes);
    if d.Truncated? || Decode(bytes[d.length..]).Truncated? {
      OneAtStart(bytes);
    } else {
      TwoAtStart(bytes, d, Decode(bytes[d.length..]));
    }
  }

  // ----- The blocks -----

  lemma BlockIsTwoNumbers(bytes: seq<Byte>, gapBegin: nat)
    ensures var b := ParseBlock(bytes, gapBegin);
            if b.OneBlock? then
              && Numbers(bytes) == Prefixed([b.block.gap, b.block.size], Numbers(bytes[b.used..]))
              && b.block.gap + b.block.size <= gapBegin
            else
              var m := Numbers(bytes);
              m.None? || |m.value| < 2 || m.value[0] + m.value[1] > gapBegin
  {
    hide Decode, Numbers;
    TwoNumbers(bytes);
  }

  /** Block i has its gap and its size from the numbers, and starts below all numbers before. */
  ghost predicate IsBlock(b: Block, s: seq<nat>, i: nat, gapBegin: nat)
    requires 2 * i + 1 < |s|
  {
    b.gap == s[2 * i] && b.size == s[2 * i + 1] && b.high == gapBegin - Sum(s[..2 * i + 1])
  }

  ghost predicate AreBlocks(blocks: seq<Block>, s: seq<nat>, gapBegin: nat) {
    |s| == 2 * |blocks| && forall i :: 0 <= i < |blocks| ==> IsBlock(blocks[i], s, i, gapBegin)
  }

  lemma SumTwo(a: nat, b: nat, s: seq<nat>)
    ensures Sum([a, b] + s) == a + b + Sum(s)
  {
    assert ([a, b] + s)[1..] == [b] + s && ([b] + s)[1..] == s;
  }

  lemma OneMoreBlock(b: Block, blocks: seq<Block>, s: seq<nat>, gapBegin: nat)
    requires b.gap + b.high == gapBegin && b.size <= b.high
    requires AreBlocks(blocks, s, b.high - b.size)
    ensures AreBlocks([b] + blocks, [b.gap, b.size] + s, gapBegin)
  {
    var more := [b.gap, b.size] + s;
    forall i | 0 <= i < |blocks| + 1
      ensures IsBlock(([b] + blocks)[i], more, i, gapBegin)
    {
      if i == 0 {
        assert more[..1] == [b.gap];
        assert Sum([b.gap]) == b.gap;
      } else {
        assert IsBlock(blocks[i - 1], s, i - 1, b.high - b.size);
        assert more[..2 * i + 1] == [b.gap, b.size] + s[..2 * i - 1];
        SumTwo(b.gap, b.size, s[..2 * i - 1]);
      }
    }
  }

  /** Blocks are read to the end of the bytes exactly if these are two numbers for each,
      which together do not exceed what there is. */
  lemma {:induction false} BlocksAreNumbers(bytes: seq<Byte>, count: nat, gapBegin: nat)
    ensures var r, m := ParseBlocks(bytes, count, gapBegin), Numbers(bytes);
            && (r.Blocks? && r.used == |bytes| <==> m.Some? && |m.value| == 2 * count && Sum(m.value) <= gapBegin)
            && (r.Blocks? && r.used == |bytes| ==>
                  r.gapEnd == gapBegin - Sum(m.value) && AreBlocks(r.blocks, m.value, gapBegin))
    decreases count
  {
    hide ParseBlock, Decode, AreBlocks, Sum;
    BlockIsTwoNumbers(bytes, gapBegin);
    var b := ParseBlock(bytes, gapBegin);
    if count == 0 {
      NoBlocks(bytes, gapBegin);
    } else if b.OneBlock? {
      var rest := bytes[b.used..];
      BlocksAreNumbers(rest, count - 1, b.block.high - b.block.size);
      if Numbers(rest).Some? {
        SumTwo(b.block.gap, b.block.size, Numbers(rest).value);
      }
      var r := ParseBlocks(rest, count - 1, b.block.high - b.block.size);
      if r.Blocks? && r.used == |rest| {
        OneMoreBlock(b.block, r.blocks, Numbers(rest).value, gapBegin);
      }
    } else if Numbers(bytes).Some? && |Numbers(bytes).value| >= 2 {
      var s := Numbers(bytes).value;
      assert s == [s[0], s[1]] + s[2..];
      SumTwo(s[0], s[1], s[2..]);
    }
  }

  lemma NoBlocks(bytes: seq<Byte>, gapBegin: nat)
    ensures Numbers(bytes).Some? && |Numbers(bytes).value| == 0 <==> bytes == []
    ensures AreBlocks([], [], gapBegin) && Sum([]) == 0
  {
    hide Decode;
  }

  // ----- The header -----

  lemma DelayLength(bytes: seq<Byte>)
    ensures var d := Decode(bytes);
            if bytes != [] && LengthFrom(bytes[0]) <= |bytes| then d.Decoded? && d.length == LengthFrom(bytes[0])
            else d.Truncated?
  {
  }

  /** Where the last two of the header's numbers are, if the first two are there. */
  lemma HeaderEnd(bytes: seq<Byte>, i: nat)
    requires i <= |bytes|
    ensures var count := Decode(bytes[i..]);
            var last := if count.Decoded? then Decode(bytes[i + count.length..]) else Truncated;
            if last.Decoded? then
              Numbers(bytes[i..])
              == Prefixed([count.value, last.value], Numbers(bytes[i + count.length + last.length..]))
            else
              Numbers(bytes[i..]).None? || |Numbers(bytes[i..]).value| < 2
  {
    hide Decode, Numbers, Prefixed;
    var y := bytes[i..];
    TwoNumbers(y);
    var count := Decode(y);
    if count.Decoded? {
      assert y[count.length..] == bytes[i + count.length..];
      var last := Decode(y[count.length..]);
      if last.Decoded? {
        assert y[count.length + last.length..] == bytes[i + count.length + last.length..];
      }
    }
  }

  /** The first two numbers are the largest and the delay, of which only the length counts. */
  lemma HeaderStart(bytes: seq<Byte>)
    ensures var a := Decode(bytes);
            if a.Decoded? && a.length < |bytes| && a.length + LengthFrom(bytes[a.length]) <= |bytes| then
              exists delay: nat ::
                Numbers(bytes)
                == Prefixed([a.value, delay], Numbers(bytes[a.length + LengthFrom(bytes[a.length])..]))
            else
              Numbers(bytes).None? || |Numbers(bytes).value| < 2
  {
    hide Decode, Numbers, LengthFrom, Prefixed;
    TwoNumbers(bytes);
    var a := Decode(bytes);
    if a.Decoded? {
      var x := bytes[a.length..];
      DelayLength(x);
      if a.length < |bytes| {
        assert x[0] == bytes[a.length];
      }
    }
  }

  /** The header is four numbers, whatever encodings they have. */
  lemma HeaderIsFourNumbers(bytes: seq<Byte>)
    ensures var h := ParseHeader(bytes);
            if h.Header? then
              exists delay: nat ::
                Numbers(bytes) == Prefixed([h.largest, delay, h.count, h.lastRange], Numbers(bytes[h.used..]))
            else
              Numbers(bytes).None? || |Numbers(bytes).value| < 4
  {
    hide Decode, Numbers, LengthFrom, Prefixed;
    HeaderStart(bytes);
    var a := Decode(bytes);
    if a.Decoded? && a.length < |bytes| && a.length + LengthFrom(bytes[a.length]) <= |bytes| {
      var i := a.length + LengthFrom(bytes[a.length]);
      HeaderEnd(bytes, i);
      var delay: nat :| Numbers(bytes) == Prefixed([a.value, delay], Numbers(bytes[i..]));
      var h := ParseHeader(bytes);
      if h.Header? {
        PrefixedTwice([a.value, delay], [h.count, h.lastRange], Numbers(bytes[h.used..]));
        assert [a.value, delay] + [h.count, h.lastRange] == [h.largest, delay, h.count, h.lastRange];
      } else {
        PrefixedLength([a.value, delay], Numbers(bytes[i..]), 2);
      }
    }
  }

  // ----- The frame -----

  /** What is parsed is what the numbers say. */
  ghost predicate Shows(a: Ack, s: seq<nat>)
    requires Describes(s)
  {
    && a.largest == s[0] && a.count == s[2] && a.lastRange == s[3]
    && a.gapEnd == s[0] - s[3] - 1 - Sum(s[4..])
    && |a.blocks| == 1 + s[2]
    && a.blocks[0] == Block(0, s[0], s[3] + 1)
    && AreBlocks(a.blocks[1..], s[4..], s[0] - s[3] - 1)
  }

  lemma {:induction false} AcceptedExactly(ackType: Byte, bytes: seq<Byte>)
    requires bytes != []
    ensures var a, m := ParseAck(ackType, bytes), Numbers(bytes[1..]);
            && (a.Some? <==> bytes[0] == ackType && m.Some? && Describes(m.value))
            && (a.Some? ==> Shows(a.value, m.value))
  {
    hide ParseHeader, ParseBlocks, Numbers, Sum, AreBlocks;
    var body := bytes[1..];
    HeaderIsFourNumbers(body);
    var h := ParseHeader(body);
    if h.Header? {
      var rest := body[h.used..];
      assert rest == bytes[1 + h.used..];
      var delay: nat :| Numbers(body) == Prefixed([h.largest, delay, h.count, h.lastRange], Numbers(rest));
      if Numbers(rest).Some? {
        assert Numbers(body).value[4..] == Numbers(rest).value;
      }
      if h.lastRange < h.largest {
        BlocksAreNumbers(rest, h.count, h.largest - h.lastRange - 1);
        var r := ParseBlocks(rest, h.count, h.largest - h.lastRange - 1);
        if r.Blocks? && r.used == |rest| {
          assert ([Block(0, h.largest, h.lastRange + 1)] + r.blocks)[1..] == r.blocks;
        }
      }
    }
  }

  lemma ReceivedIsCovered(a: Ack, s: seq<nat>, n: int)
    requires Describes(s) && Shows(a, s)
    ensures Received(s, n) <==> exists i :: 0 <= i < |a.blocks| && Covers(a.blocks[i], n)
  {
    hide Sum;
    var rest := a.blocks[1..];
    forall i: nat | i < s[2]
      ensures Covers(a.blocks[i + 1], n) <==> Top(s, i) - s[5 + 2 * i] < n <= Top(s, i)
    {
      assert IsBlock(rest[i], s[4..], i, s[0] - s[3] - 1);
      assert s[4..][..2 * i + 1] == s[4..5 + 2 * i];
      assert s[4..][2 * i + 1] == s[5 + 2 * i];
    }
    if i :| 0 <= i < |a.blocks| && Covers(a.blocks[i], n) {
      if i > 0 {
        var j: nat := i - 1;
        assert Covers(a.blocks[j + 1], n);
        assert Top(s, j) - s[5 + 2 * j] < n <= Top(s, j);
      }
    }
    if i: nat :| i < s[2] && Top(s, i) - s[5 + 2 * i] < n <= Top(s, i) {
      assert Covers(a.blocks[i + 1], n);
    }
    if s[0] - s[3] <= n <= s[0] {
      assert Covers(a.blocks[0], n);
    }
  }

  /** The reader accepts exactly the frames made of such numbers, in whatever encodings,
      with nothing missing and nothing left over, that show what is expected. The
      delay plays no part in it. */
  lemma AcceptsIsVerdict(ackType: Byte, bytes: seq<Byte>, expected: ExpectedAck, mask: Mask)
    requires bytes != []
    ensures Accepts(ackType, bytes, expected, mask) <==> Verdict(ackType, bytes, expected, mask)
  {
    hide ParseAck, Numbers, MarkAll, Received;
    AcceptedExactly(ackType, bytes);
    var a := ParseAck(ackType, bytes);
    if a.Some? {
      var s := Numbers(bytes[1..]).value;
      forall k | 0 <= k < 64
        ensures MarkAll(a.value.blocks)[k] <==> exists n :: Received(s, n) && n % 64 == k
      {
        MaskIsUnionModulo64(a.value.blocks, k);
        forall n
          ensures Received(s, n) <==> exists i :: 0 <= i < |a.value.blocks| && Covers(a.value.blocks[i], n)
        {
          ReceivedIsCovered(a.value, s, n);
        }
        if i, n :| 0 <= i < |a.value.blocks| && Covers(a.value.blocks[i], n) && n % 64 == k {
          assert Received(s, n);
        }
        if n :| Received(s, n) && n % 64 == k {
          var i :| 0 <= i < |a.value.blocks| && Covers(a.value.blocks[i], n);
          assert CoveredModulo(a.value.blocks, k);
        }
      }
    }
  }

  // ----- The delay -----

  /** The header reads largest and count back and takes the next number for the first
      range, however long the delay is in between. */
  lemma HeaderSkipsDelay(largest: nat, delay: nat, count: nat, tail: seq<Byte>)
    requires largest < VARINT_LIMIT && delay < VARINT_LIMIT && count < VARINT_LIMIT
    ensures var first := Decode(tail);
            ParseHeader(Encode(largest) + Encode(delay) + Encode(count) + tail)
            == if first.Truncated? then BadHeader
               else Header(largest, count, first.value,
                           EncodedLength(largest) + EncodedLength(delay) + EncodedLength(count) + first.length)
  {
    hide Encode, Decode;
    var l, d := EncodedLength(largest), EncodedLength(delay);
    var bytes := Encode(largest) + Encode(delay) + Encode(count) + tail;
    DecodeEncode(largest, Encode(delay) + Encode(count) + tail);
    assert bytes == Encode(largest) + (Encode(delay) + Encode(count) + tail);
    assert bytes[l] == Encode(delay)[0];
    DecodeEncode(count, tail);
    assert bytes[l + d..] == Encode(count) + tail;
    assert bytes[l + d + EncodedLength(count)..] == tail;
  }

  lemma EncodedNumbers(ackType: Byte, largest: nat, delay: nat, rest: seq<Byte>)
    requires largest < VARINT_LIMIT && delay < VARINT_LIMIT
    ensures var bytes := [ackType] + Encode(largest) + Encode(delay) + rest;
            bytes[0] == ackType && Numbers(bytes[1..]) == Prefixed([largest, delay], Numbers(rest))
  {
    hide Encode, Decode, Numbers;
    var body := Encode(largest) + (Encode(delay) + rest);
    assert ([ackType] + Encode(largest) + Encode(delay) + rest)[1..] == body;
    DecodeEncode(largest, Encode(delay) + rest);
    DecodeEncode(delay, rest);
    assert body[EncodedLength(largest)..] == Encode(delay) + rest;
    assert body[EncodedLength(largest) + EncodedLength(delay)..] == rest;
    TwoNumbers(body);
  }

  lemma DelayIsNotReceived(largest: nat, d: nat, e: nat, rest: seq<nat>, n: int)
    ensures var s, t := [largest, d] + rest, [largest, e] + rest;
            && Describes(s) == Describes(t)
            && (Describes(s) ==> Received(s, n) == Received(t, n))
  {
    hide Sum;
    var s, t := [largest, d] + rest, [largest, e] + rest;
    assert s[2..] == rest == t[2..];
    if |s| >= 4 {
      assert s[4..] == rest[2..] == t[4..];
      if Describes(s) {
        assert forall i: nat :: i < s[2] ==> s[4..5 + 2 * i] == rest[2..3 + 2 * i] == t[4..5 + 2 * i];
        assert forall i: nat :: i < s[2] ==> Top(s, i) == Top(t, i);
      }
    }
  }

  /** Frames that differ in the delay only get the same verdict. */
  lemma DelayDoesNotMatter(ackType: Byte, largest: nat, d: nat, e: nat, rest: seq<Byte>,
                           expected: ExpectedAck, mask: Mask)
    requires largest < VARINT_LIMIT && d < VARINT_LIMIT && e < VARINT_LIMIT
    ensures Accepts(ackType, [ackType] + Encode(largest) + Encode(d) + rest, expected, mask)
       <==> Accepts(ackType, [ackType] + Encode(largest) + Encode(e) + rest, expected, mask)
  {
    hide Encode, Accepts, Received, Describes, Numbers;
    var x := [ackType] + Encode(largest) + Encode(d) + rest;
    var y := [ackType] + Encode(largest) + Encode(e) + rest;
    EncodedNumbers(ackType, largest, d, rest);
    EncodedNumbers(ackType, largest, e, rest);
    AcceptsIsVerdict(ackType, x, expected, mask);
    AcceptsIsVerdict(ackType, y, expected, mask);
    if Numbers(rest).Some? {
      SameVerdict(largest, d, e, Numbers(rest).value, expected, mask);
    }
  }

  lemma SameVerdict(largest: nat, d: nat, e: nat, rest: seq<nat>, expected: ExpectedAck, mask: Mask)
    ensures VerdictOf([largest, d] + rest, expected, mask) <==> VerdictOf([largest, e] + rest, expected, mask)
  {
    hide Received, Sum;
    var s, t := [largest, d] + rest, [largest, e] + rest;
    DelayIsNotReceived(largest, d, e, rest, 0);
    if Describes(s) {
      forall n
        ensures Received(s, n) == Received(t, n)
      {
        DelayIsNotReceived(largest, d, e, rest, n);
      }
    }
  }
}
