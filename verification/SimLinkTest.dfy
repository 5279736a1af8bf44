/** The driver loop of the link's own test, for any number of packets, mask and queue limit. */
module SimLinkTest {
  import opened Words
  import opened SimLink

  const NEVER: nat := 0xFFFF_FFFF_FFFF_FFFF
  const TEST_LATENCY: nat := 10000
  const TEST_INTERVAL: nat := 250

  /** The latest the queue's clock can read after k submits. */
  ghost function LatestClock(picosecPerByte: nat, packetSize: nat, k: nat): nat {
    if k == 0 then 0
    else LatestClock(picosecPerByte, packetSize, k - 1) + TEST_INTERVAL + TransmitTime(picosecPerByte, packetSize)
  }

  lemma {:induction false} LatestClockGrows(picosecPerByte: nat, packetSize: nat, j: nat, k: nat)
    requires j <= k
    ensures j * TEST_INTERVAL <= LatestClock(picosecPerByte, packetSize, j)
    ensures LatestClock(picosecPerByte, packetSize, j) <= LatestClock(picosecPerByte, packetSize, k)
    decreases j + k
  {
    if j < k {
      LatestClockGrows(picosecPerByte, packetSize, j, k - 1);
    } else if j > 0 {
      LatestClockGrows(picosecPerByte, packetSize, j - 1, j - 1);
    }
  }

  /** No arrival time computed during the test reaches 2^64. */
  ghost predicate TimesFit(nbPackets: nat, picosecPerByte: nat, packetSize: nat) {
    LatestClock(picosecPerByte, packetSize, nbPackets) + TEST_LATENCY <= NEVER
  }

  /** The set bits among the first n of the cyclic mask. */
  ghost function LossesDealt(mask: Option<Mask>, n: nat): nat {
    if mask.None? then 0 else CountCyclic(mask.value, n)
  }

  ghost function RotatedTimes(mask: Option<Mask>, n: nat): Option<Mask> {
    if mask.None? then None else Some(RotateTimes(mask.value, n))
  }

  datatype Setting = Setting(
    nbPackets: nat, picosecPerByte: nat, packetSize: nat, queueDelayMax: nat, mask: Option<Mask>)

  /** What holds of the link between two turns of the loop. */
  ghost predicate Balanced(s: Setting, l: LinkValue, mask: Option<Mask>, queued: nat, dequeued: nat) {
    && Ordered(l)
    && l.picosecPerByte == s.picosecPerByte && l.latency == TEST_LATENCY && l.queueDelayMax == s.queueDelayMax
    && queued <= s.nbPackets && dequeued + |l.queue| + l.dropped == queued
    && l.queueTime <= LatestClock(s.picosecPerByte, s.packetSize, queued)
    && (s.queueDelayMax == 0 ==> l.dropped == LossesDealt(s.mask, queued) && mask == RotatedTimes(s.mask, queued))
  }

  lemma BalancedAfterSubmit(s: Setting, l: LinkValue, mask: Option<Mask>, queued: nat, dequeued: nat,
                            bytes: seq<Byte>, now: nat)
    requires Balanced(s, l, mask, queued, dequeued) && queued < s.nbPackets
    requires |bytes| == s.packetSize && now == queued * TEST_INTERVAL
    ensures Balanced(s, Submitted(l, bytes, now, TakesLoss(mask)), if Admits(l, now) then Rotated(mask) else mask,
                     queued + 1, dequeued)
  {
    LatestClockGrows(s.picosecPerByte, s.packetSize, queued, queued);
    SubmittedStaysOrdered(l, bytes, now, TakesLoss(mask));
    if s.mask.Some? {
      RotateTimesBit(s.mask.value, queued, 0);
    }
  }

  lemma BalancedAfterTake(s: Setting, l: LinkValue, mask: Option<Mask>, queued: nat, dequeued: nat, now: nat)
    requires Balanced(s, l, mask, queued, dequeued) && HasArrived(l, now)
    ensures Balanced(s, Dequeued(l, now), mask, queued, dequeued + 1)
  {
  }

  lemma BalancedArrivals(s: Setting, l: LinkValue, mask: Option<Mask>, queued: nat, dequeued: nat)
    requires Balanced(s, l, mask, queued, dequeued) && TimesFit(s.nbPackets, s.picosecPerByte, s.packetSize)
    ensures forall p :: p in l.queue ==> p.arrival <= NEVER
  {
    LatestClockGrows(s.picosecPerByte, s.packetSize, queued, s.nbPackets);
  }

  /** One turn of the loop: takes out the packet due next, or else submits one, or
      else finds that nothing is left to do. */
  method Turn(link: Link, ghost s: Setting, bytes: seq<Byte>, departureTime: nat, remaining: bool,
              ghost queued: nat, ghost dequeued: nat)
    returns (taken: bool, submitted: bool)
    requires link.Valid() && Balanced(s, link.Value(), link.MaskValue(), queued, dequeued)
    requires TimesFit(s.nbPackets, s.picosecPerByte, s.packetSize) && |bytes| == s.packetSize
    requires remaining == (queued < s.nbPackets)
    requires departureTime == if remaining then queued * TEST_INTERVAL else NEVER
    modifies link, link.lastPacket, link.lossMask
    ensures link.Valid() && link.lossMask == old(link.lossMask)
    ensures link.lastPacket == null || link.lastPacket == old(link.lastPacket) || fresh(link.lastPacket)
    ensures taken ==> !submitted && |link.nodes| == |old(link.nodes)| - 1
    ensures Balanced(s, link.Value(), link.MaskValue(),
                     queued + (if submitted then 1 else 0), dequeued + (if taken then 1 else 0))
    ensures submitted ==> remaining && |link.nodes| <= |old(link.nodes)| + 1
    ensures !taken && !submitted ==> !remaining && link.nodes == []
  {
    hide Balanced, Submitted, Admits, Rotated, TakesLoss, TimesFit, LatestClock;
    BalancedArrivals(s, link.Value(), link.MaskValue(), queued, dequeued);
    var currentTime := link.NextArrivalTime(departureTime);
    ghost var l, mask := link.Value(), link.MaskValue();
    var packet := link.Dequeue(currentTime);
    taken, submitted := packet != null, packet == null && remaining;
    if taken {
      BalancedAfterTake(s, l, mask, queued, dequeued, currentTime);
    } else if submitted {
      BalancedAfterSubmit(s, link.Value(), link.MaskValue(), queued, dequeued, bytes, departureTime);
      link.SubmitNew(bytes, departureTime);
    }
  }

  /** Every packet offered is either dequeued or dropped, and the loop ends: each
      turn submits a packet, or takes one out. Without a queue limit the drops are
      the set bits the cyclic mask shows in nbPackets steps. */
  method SimLinkOneTest(lossMask: LossMask?, queueDelayMax: nat, nbLosses: nat,
                        nbPackets: nat, picosecPerByte: nat, packetSize: nat)
    returns (ret: int, dequeued: nat, dropped: nat)
    requires TimesFit(nbPackets, picosecPerByte, packetSize)
    modifies lossMask
    ensures dequeued + dropped == nbPackets
    ensures ret == 0 || ret == -1
    ensures ret == 0 <==> nbLosses == dropped
    ensures queueDelayMax == 0 && lossMask == null ==> dropped == 0
    ensures queueDelayMax == 0 && lossMask != null ==>
              && dropped == CountCyclic(old(lossMask.bits), nbPackets)
              && lossMask.bits == RotateTimes(old(lossMask.bits), nbPackets)
  {
    ret := 0;
    var departureTime := 0;
    var link := new Link(picosecPerByte, TEST_LATENCY, lossMask, queueDelayMax, 0);
    dequeued := 0;
    var queued := 0;
    ghost var s := Setting(nbPackets, picosecPerByte, packetSize, queueDelayMax, link.MaskValue());
    while true
      invariant fresh(link) && (link.lastPacket == null || fresh(link.lastPacket))
      invariant link.Valid() && link.lossMask == lossMask
      invariant Balanced(s, link.Value(), link.MaskValue(), queued, dequeued)
      invariant departureTime == queued * TEST_INTERVAL || (queued == nbPackets && departureTime == NEVER)
      decreases 2 * (nbPackets - queued) + |link.nodes|
    {
      if queued >= nbPackets {
        departureTime := NEVER;
      }
      var bytes := seq(packetSize, _ => 0);
      var taken, submitted := Turn(link, s, bytes, departureTime, queued < nbPackets, queued, dequeued);
      if taken {
        dequeued := dequeued + 1;
      } else if submitted {
        departureTime := departureTime + TEST_INTERVAL;
        queued := queued + 1;
      } else {
        break;
      }
    }
    if dequeued + nbLosses != nbPackets {
      ret := -1;
    }
    dropped := link.packetsDropped;
    var freed := link.Delete();
  }

  const NO_LOSSES: Mask := EmptyMask()
  const LOSE_FOURTH: Mask := EmptyMask()[3 := true]
  const LOSE_FOURTH_AND_FIFTH: Mask := EmptyMask()[3 := true][4 := true]

  lemma {:induction false} CountAfter(m: Mask, lo: nat, hi: nat)
    requires lo <= hi <= 64
    requires forall k :: lo <= k < hi ==> !m[k]
    ensures CountCyclic(m, hi) == CountCyclic(m, lo)
  {
    if lo < hi {
      CountAfter(m, lo, hi - 1);
    }
  }

  /** The three masks of the test (0, 8 and 0x18) deal 0, 1 and 2 losses to sixteen packets. */
  lemma TestMasksCounted()
    ensures CountCyclic(NO_LOSSES, 16) == 0
    ensures CountCyclic(LOSE_FOURTH, 16) == 1
    ensures CountCyclic(LOSE_FOURTH_AND_FIFTH, 16) == 2
  {
    CountAfter(NO_LOSSES, 0, 16);
    CountAfter(LOSE_FOURTH, 0, 3);
    CountAfter(LOSE_FOURTH, 4, 16);
    CountAfter(LOSE_FOURTH_AND_FIFTH, 0, 3);
    assert CountCyclic(LOSE_FOURTH_AND_FIFTH, 4) == 1;
    CountAfter(LOSE_FOURTH_AND_FIFTH, 5, 16);
  }

  /** The link's own test returns zero: its three masks deal the losses it expects. */
  method SimLinkSuite(picosecPerByte: nat, packetSize: nat) returns (ret: int)
    requires TimesFit(16, picosecPerByte, packetSize)
    ensures ret == 0
  {
    TestMasksCounted();
    var lossMask := new LossMask(NO_LOSSES);
    var dequeued, dropped;
    ret, dequeued, dropped := SimLinkOneTest(lossMask, 0, 0, 16, picosecPerByte, packetSize);
    if ret == 0 {
      lossMask.bits := LOSE_FOURTH;
      ret, dequeued, dropped := SimLinkOneTest(lossMask, 0, 1, 16, picosecPerByte, packetSize);
    }
    if ret == 0 {
      lossMask.bits := LOSE_FOURTH_AND_FIFTH;
      ret, dequeued, dropped := SimLinkOneTest(lossMask, 0, 2, 16, picosecPerByte, packetSize);
    }
  }
}
