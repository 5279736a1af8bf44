/**
 Whole runs of the simulation, whatever the endpoints answer: the order of
 deliveries over both links, the course of simulated time, and the number of
 packets in flight.
 */
module SimRuns {
  import opened Words
  import opened SimLink
  import opened LinkRuns
  import opened SimRound
  import opened SimLoops

  // ----- One round -----

  /** Both queues are in order and nothing queued arrives before the floor, which is
      not in the future. Empty links are settled at any time up to now. */
  ghost predicate Settled(n: Net, floor: nat) {
    && floor <= n.time
    && Ordered(n.pair.cToS) && Ordered(n.pair.sToC)
    && (forall p :: p in n.pair.cToS.queue ==> floor <= p.arrival)
    && (forall p :: p in n.pair.sToC.queue ==> floor <= p.arrival)
  }

  lemma SubmittedArrivesLater(l: LinkValue, bytes: seq<Byte>, now: nat, lost: bool)
    ensures forall p :: p in Submitted(l, bytes, now, lost).queue ==> p in l.queue || now < p.arrival
  {
  }

  lemma OfferStaysSettled(n: Net, side: Side, bytes: seq<Byte>, now: nat, floor: nat)
    requires Settled(n, floor) && n.time <= now
    ensures Settled(Net(PairStep(n.pair, PairOffer(side, bytes, now)), now), floor)
    ensures forall p :: p in PairStep(n.pair, PairOffer(side, bytes, now)).Get(side).queue ==>
              p in n.pair.Get(side).queue || now < p.arrival
  {
    hide Submitted, Admits, Ordered;
    SubmittedStaysOrdered(n.pair.Get(side), bytes, now, TakesLoss(n.pair.mask));
    SubmittedArrivesLater(n.pair.Get(side), bytes, now, TakesLoss(n.pair.mask));
  }

  /** Polling never passes over a queued packet: afterwards every queued arrival is at
      or after the new time, and a packet delivered is delivered at its own arrival time. */
  lemma PolledSettles(n: Net, next: nat, floor: nat)
    requires Settled(n, floor) && floor <= next
    ensures var (after, delivered) := Polled(n.pair, next);
            && Settled(after, after.time) && floor <= after.time <= next
            && (delivered.None? ==> after.time == next)
            && (delivered.Some? ==>
                  && delivered.value.at == delivered.value.packet.arrival == after.time
                  && delivered.value.packet in n.pair.Get(delivered.value.side).queue)
  {
    hide PairSubmit, Submitted, Finish, Admits, WakeTime;
    match Earlier(n.pair, next)
    case None =>
    case Some(side) =>
      var head := n.pair.Get(side).queue[0];
      assert head in n.pair.Get(side).queue;
      NextArrivalIsEarliest(n.pair.cToS, next);
      NextArrivalIsEarliest(n.pair.sToC, next);
      var rest := n.pair.Get(side).queue[1..];
      forall p | p in rest
        ensures head.arrival <= p.arrival
      {
        assert p in n.pair.Get(side).queue;
      }
  }

  /** A round that sends keeps the floor; any other round raises it to its own end. */
  lemma RoundSettles(n: Net, o: Oracle, floor: nat)
    requires Settled(n, floor)
    ensures var r := Round(n, o);
            && (r.sent.Some? ==> Settled(r.net, floor) && n.time <= r.net.time)
            && (r.sent.None? ==> Settled(r.net, r.net.time) && floor <= r.net.time)
            && (r.delivered.Some? ==>
                  r.sent.None? && r.delivered.value.at == r.delivered.value.packet.arrival == r.net.time)
  {
    hide PairStep, Earlier, NextArrival, Ordered;
    match Choose(o)
    case Send(side, bytes, delay) =>
      OfferStaysSettled(n, side, bytes, n.time + delay, floor);
    case Idle(_) =>
      PolledSettles(n, WakeTime(o, n.time + IDLE_STEP), floor);
  }

  // ----- The order of deliveries -----

  function Deliveries(n: Net, script: nat -> Oracle, k: nat): seq<Delivery> {
    if k == 0 then []
    else
      var r := RoundNumber(n, script, k - 1);
      var earlier := Deliveries(n, script, k - 1);
      if r.delivered.Some? then earlier + [r.delivered.value] else earlier
  }

  /** The time set by the last round that did not send. */
  ghost function Floor(n: Net, script: nat -> Oracle, start: nat, k: nat): nat {
    if k == 0 then start
    else if RoundNumber(n, script, k - 1).sent.Some? then Floor(n, script, start, k - 1)
    else Rounds(n, script, k).time
  }

  ghost predicate InOrder(ds: seq<Delivery>, latest: nat) {
    && (forall i, j :: 0 <= i < j < |ds| ==> ds[i].at <= ds[j].at)
    && (forall i :: 0 <= i < |ds| ==> ds[i].at == ds[i].packet.arrival <= latest)
  }

  /** Whatever the endpoints do, packets are delivered in the order of their arrival
      times over both links together, each at exactly its own arrival time; and what
      is still queued arrives no earlier than anything delivered. */
  lemma {:induction false} DeliveryOrder(n: Net, script: nat -> Oracle, start: nat, k: nat)
    requires Settled(n, start)
    ensures var floor := Floor(n, script, start, k);
            && Settled(Rounds(n, script, k), floor) && start <= floor
            && InOrder(Deliveries(n, script, k), floor)
  {
    hide Round, Settled;
    if k > 0 {
      DeliveryOrder(n, script, start, k - 1);
      RoundSettles(Rounds(n, script, k - 1), script(k - 1), Floor(n, script, start, k - 1));
    }
  }

  // ----- The course of time -----

  ghost predicate NoStateless(o: Oracle) {
    o.stateless.None? || o.stateless.value == []
  }

  /** With no stateless packets time never goes back from one round to the next, and
      nothing queued is ever due before the current time. */
  lemma {:induction false} TimeIsMonotone(n: Net, script: nat -> Oracle, j: nat, k: nat)
    requires Settled(n, n.time) && j <= k
    requires forall i: nat :: i < k ==> NoStateless(script(i))
    ensures Settled(Rounds(n, script, k), Rounds(n, script, k).time)
    ensures Rounds(n, script, j).time <= Rounds(n, script, k).time
    decreases k
  {
    hide Round, Settled;
    if k > 0 {
      TimeIsMonotone(n, script, if j < k then j else k - 1, k - 1);
      RoundKeepsTime(Rounds(n, script, k - 1), script(k - 1));
    }
  }

  lemma RoundKeepsTime(n: Net, o: Oracle)
    requires Settled(n, n.time) && NoStateless(o)
    ensures var r := Round(n, o); Settled(r.net, r.net.time) && n.time <= r.net.time
  {
    hide PairStep, Ordered;
    RoundSettles(n, o, n.time);
  }

  /** Exactly when a round sets time back: it does not send, and something queued is
      overdue. Only a stateless packet, which jumps time forward, makes that possible. */
  lemma TimeGoesBackExactly(n: Net, o: Oracle)
    requires Ordered(n.pair.cToS) && Ordered(n.pair.sToC)
    ensures Round(n, o).net.time < n.time
        <==> Choose(o).Idle? && (ArrivesBefore(n.pair.cToS, n.time) || ArrivesBefore(n.pair.sToC, n.time))
  {
    hide PairStep, ArrivesBefore, NextArrival, Ordered;
    var next := WakeTime(o, n.time + IDLE_STEP);
    EarlyArrivalAtHead(n.pair.cToS, n.time, next);
    EarlyArrivalAtHead(n.pair.sToC, n.time, next);
  }

  const CLIENT_SENDS: Oracle := SILENT.(clientPrepare := Prepared([0]))
  const CLIENT_FAILS: Oracle := SILENT.(clientPrepare := PrepareFailed)
  const SERVER_RESETS: Oracle := SILENT.(stateless := Some([0]))

  lemma SmallPacketSent(l: LinkValue, now: nat)
    requires l.picosecPerByte == 0 && l.queueDelayMax == 0 && l.queueTime <= now
    ensures Submitted(l, [0], now, false)
         == l.(queueTime := now + 1, sent := l.sent + 1, queue := l.queue + [PacketValue(now + 1 + l.latency, [0])])
  {
  }

  /** From empty links of latency below 99999: the client sends, the server sends a
      stateless packet, and the third round delivers the first packet in the past. */
  lemma StatelessSetsTimeBack(l: LinkValue, script: nat -> Oracle)
    requires l.picosecPerByte == 0 && l.queueDelayMax == 0 && l.queueTime == 0 && l.queue == [] && l.latency < 99_999
    requires script(0) == CLIENT_SENDS && script(1) == SERVER_RESETS && script(2) == SILENT
    ensures var n := Net(Pair(l, l, None), 0);
            && Settled(n, 0) && Rounds(n, script, 2).time == 100_000
            && Rounds(n, script, 3).time == 1 + l.latency
  {
    hide Round, Submitted, Polled;
    var n := Net(Pair(l, l, None), 0);
    SmallPacketSent(l, 0);
    SmallPacketSent(l, 100_000);
    RoundSends(n, CLIENT_SENDS, ClientToServer, [0], 0);
    var one := Round(n, CLIENT_SENDS).net;
    assert one == Net(Pair(Submitted(l, [0], 0, false), l, None), 0);
    RoundSends(one, SERVER_RESETS, ServerToClient, [0], 100_000);
    var two := Round(one, SERVER_RESETS).net;
    assert two == Net(Pair(Submitted(l, [0], 0, false), Submitted(l, [0], 100_000, false), None), 100_000);
    RoundIdles(two, SILENT, false);
    LateDelivery(two.pair, 110_000);
    assert Rounds(n, script, 1) == one;
    assert Rounds(n, script, 2) == two;
    assert Rounds(n, script, 3) == Round(two, SILENT).net;
  }

  /** From empty links of latency below 9999: the client sends, and then fails to prepare
      a packet; the second round reports success, because the first packet is delivered. */
  lemma FailureGoesUnreported(l: LinkValue, script: nat -> Oracle)
    requires l.picosecPerByte == 0 && l.queueDelayMax == 0 && l.queueTime == 0 && l.queue == [] && l.latency < 9_999
    requires script(0) == CLIENT_SENDS && script(1) == CLIENT_FAILS
    ensures var n := Net(Pair(l, l, None), 0);
            && Settled(n, 0) && Failing(CLIENT_FAILS)
            && RoundNumber(n, script, 1).ok
  {
    hide Round, Submitted, Polled;
    var n := Net(Pair(l, l, None), 0);
    SmallPacketSent(l, 0);
    RoundSends(n, CLIENT_SENDS, ClientToServer, [0], 0);
    var one := Round(n, CLIENT_SENDS).net;
    assert one == Net(Pair(Submitted(l, [0], 0, false), l, None), 0);
    var first := one.pair.cToS.queue[0];
    assert first in one.pair.cToS.queue && first.arrival < WakeTime(CLIENT_FAILS, one.time + IDLE_STEP);
    RoundStatus(one, CLIENT_FAILS);
    assert Rounds(n, script, 1) == one;
  }

  lemma LateDelivery(p: Pair, next: nat)
    requires p.cToS.queue != [] && p.cToS.queue[0].arrival < next
    requires p.sToC.queue != [] && p.cToS.queue[0].arrival < p.sToC.queue[0].arrival
    ensures Polled(p, next).0.time == p.cToS.queue[0].arrival
  {
    hide PairSubmit;
  }

  // ----- Packets in flight -----

  /** A longer packet takes no less time. */
  lemma TransmitGrows(rate: nat, shorter: nat, longer: nat)
    requires shorter <= longer
    ensures TransmitTime(rate, shorter) <= TransmitTime(rate, longer)
  {
    hide TakesTime;
    var less, more := rate * shorter, rate * longer;
    assert less <= more;
    assert less / 0x10_0000 <= more / 0x10_0000;
  }

  ghost predicate AtMostLong(o: Oracle, size: nat) {
    && (o.clientPrepare.Prepared? ==> |o.clientPrepare.bytes| <= size)
    && (o.serverPrepare.Prepared? ==> |o.serverPrepare.bytes| <= size)
  }

  /** The queue's clock runs ahead of now by less than the delay limit plus the
      transmission of one packet of the largest size. */
  ghost predicate ClockBounded(l: LinkValue, now: nat, size: nat) {
    l.queueDelayMax > 0 && l.queueTime < now + l.queueDelayMax + TransmitTime(l.picosecPerByte, size)
  }

  ghost function FlightBound(l: LinkValue, size: nat): nat {
    l.queueDelayMax + l.latency + TransmitTime(l.picosecPerByte, size)
  }

  lemma SubmitStaysBounded(l: LinkValue, bytes: seq<Byte>, now: nat, lost: bool, size: nat)
    requires ClockBounded(l, now, size) && |bytes| <= size
    ensures ClockBounded(Submitted(l, bytes, now, lost), now, size)
    ensures FlightBound(Submitted(l, bytes, now, lost), size) == FlightBound(l, size)
  {
    TransmitGrows(l.picosecPerByte, |bytes|, size);
  }

  lemma RoundStaysBounded(n: Net, o: Oracle, side: Side, size: nat)
    requires ClockBounded(n.pair.Get(side), n.time, size) && AtMostLong(o, size) && NoStateless(o)
    requires Settled(n, n.time)
    ensures var r := Round(n, o).net;
            ClockBounded(r.pair.Get(side), r.time, size)
            && FlightBound(r.pair.Get(side), size) == FlightBound(n.pair.Get(side), size)
  {
    hide Submitted, Admits, TransmitTime, Settled;
    RoundKeepsTime(n, o);
    match Choose(o)
    case Send(to, bytes, _) =>
      if to == side {
        SubmitStaysBounded(n.pair.Get(side), bytes, n.time, TakesLoss(n.pair.mask), size);
      }
    case Idle(_) =>
  }

  lemma FewInFlight(l: LinkValue, now: nat, size: nat)
    requires Ordered(l) && ClockBounded(l, now, size)
    requires forall p :: p in l.queue ==> now <= p.arrival
    ensures |l.queue| <= FlightBound(l, size)
  {
    hide TransmitTime;
    Pigeonhole(l.queue, now, now + FlightBound(l, size));
  }

  /** With a delay limit and no stateless packets, a link never holds more packets than
      the limit, plus the latency, plus the transmit time of the largest packet. */
  lemma {:induction false} InFlightBound(n: Net, script: nat -> Oracle, k: nat, side: Side, size: nat)
    requires Settled(n, n.time) && ClockBounded(n.pair.Get(side), n.time, size)
    requires forall i: nat :: i < k ==> NoStateless(script(i)) && AtMostLong(script(i), size)
    ensures var now := Rounds(n, script, k);
            && ClockBounded(now.pair.Get(side), now.time, size)
            && FlightBound(now.pair.Get(side), size) == FlightBound(n.pair.Get(side), size)
            && |now.pair.Get(side).queue| <= FlightBound(n.pair.Get(side), size)
  {
    hide Round, ClockBounded, FlightBound, Ordered;
    TimeIsMonotone(n, script, k, k);
    if k > 0 {
      InFlightBound(n, script, k - 1, side, size);
      TimeIsMonotone(n, script, k - 1, k - 1);
      RoundStaysBounded(Rounds(n, script, k - 1), script(k - 1), side, size);
    }
    var now := Rounds(n, script, k);
    FewInFlight(now.pair.Get(side), now.time, size);
  }

  // ----- The links inside a run of rounds -----

  function EventOf(r: Outcome): Option<PairEvent> {
    if r.sent.Some? then r.sent
    else if r.delivered.Some? then Some(PairTake(r.delivered.value.side, r.delivered.value.at))
    else None
  }

  /** The submits and dequeues of the first k rounds. */
  function Traffic(n: Net, script: nat -> Oracle, k: nat): seq<PairEvent> {
    if k == 0 then []
    else
      var earlier := Traffic(n, script, k - 1);
      var e := EventOf(RoundNumber(n, script, k - 1));
      if e.Some? then earlier + [e.value] else earlier
  }

  function HandedOver(ds: seq<Delivery>, side: Side): seq<PacketValue> {
    if ds == [] then []
    else
      var last := ds[|ds| - 1];
      var earlier := HandedOver(ds[..|ds| - 1], side);
      if last.side == side then earlier + [last.packet] else earlier
  }

  lemma RoundIsOneEvent(n: Net, o: Oracle)
    ensures var r := Round(n, o);
            && r.net.pair == (if EventOf(r).Some? then PairStep(n.pair, EventOf(r).value) else n.pair)
            && (r.sent.Some? ==> r.sent.value.PairOffer?)
            && (r.delivered.Some? ==>
                  && r.sent.None? && HasArrived(n.pair.Get(r.delivered.value.side), r.delivered.value.at)
                  && r.delivered.value.packet == n.pair.Get(r.delivered.value.side).queue[0])
  {
  }

  lemma RoundDelivers(n: Net, o: Oracle, side: Side, t: LinkTrace)
    requires t.link == n.pair.Get(side)
    ensures var r := Round(n, o);
            var e := EventOf(r);
            (if e.Some? && e.value.side == side then LinkStep(t, SeenAs(n.pair, e.value)) else t).delivered
            == if r.delivered.Some? && r.delivered.value.side == side then t.delivered + [r.delivered.value.packet]
               else t.delivered
  {
    hide Round;
    RoundIsOneEvent(n, o);
  }

  lemma HandedOverOneMore(ds: seq<Delivery>, d: Delivery, side: Side)
    ensures HandedOver(ds + [d], side)
         == if d.side == side then HandedOver(ds, side) + [d.packet] else HandedOver(ds, side)
  {
    assert (ds + [d])[..|ds|] == ds;
  }

  lemma SeenOneMore(p: Pair, es: seq<PairEvent>, e: PairEvent, side: Side, l: LinkValue)
    ensures PairRun(p, es + [e]) == PairStep(PairRun(p, es), e)
    ensures LinkRun(l, Seen(p, es + [e], side))
         == var t := LinkRun(l, Seen(p, es, side));
            if e.side == side then LinkStep(t, SeenAs(PairRun(p, es), e)) else t
  {
    hide PairStep, LinkStep, SeenAs;
    assert (es + [e])[..|es|] == es;
    var seen := Seen(p, es + [e], side);
    if e.side == side {
      assert seen[..|seen| - 1] == Seen(p, es, side);
    }
  }

  /** A run of rounds is a run of the two links: every law of link runs, the shared
      mask's included, holds of the simulation; and what the endpoints are handed is
      exactly what the links deliver. */
  lemma {:induction false} RoundsAreLinkRuns(n: Net, script: nat -> Oracle, k: nat, side: Side)
    ensures var es := Traffic(n, script, k);
            var run := LinkRun(n.pair.Get(side), Seen(n.pair, es, side));
            && Rounds(n, script, k).pair == PairRun(n.pair, es)
            && Rounds(n, script, k).pair.Get(side) == run.link
            && HandedOver(Deliveries(n, script, k), side) == run.delivered
  {
    hide Round, PairStep, LinkStep, SeenAs;
    if k > 0 {
      RoundsAreLinkRuns(n, script, k - 1, side);
      var before := Rounds(n, script, k - 1);
      var r := RoundNumber(n, script, k - 1);
      var earlier := Traffic(n, script, k - 1);
      var t := LinkRun(n.pair.Get(side), Seen(n.pair, earlier, side));
      RoundIsOneEvent(before, script(k - 1));
      RoundDelivers(before, script(k - 1), side, t);
      if r.delivered.Some? {
        HandedOverOneMore(Deliveries(n, script, k - 1), r.delivered.value, side);
      }
      if EventOf(r).Some? {
        SeenOneMore(n.pair, earlier, EventOf(r).value, side, n.pair.Get(side));
      }
    }
    EachLinkRunsAlone(n.pair, Traffic(n, script, k), side);
  }

  /** What an endpoint is handed, in order and byte for byte, is a prefix of what the
      other end submitted and the link neither refused nor lost; the rest of it is
      still in the queue. */
  lemma HandedOverIsWhatSurvived(n: Net, script: nat -> Oracle, k: nat, side: Side)
    requires n.pair.Get(side).queue == []
    ensures var run := LinkRun(n.pair.Get(side), Seen(n.pair, Traffic(n, script, k), side));
            HandedOver(Deliveries(n, script, k), side) + Rounds(n, script, k).pair.Get(side).queue
            == Survivors(run.admitted, n.pair.Get(side).latency)
  {
    hide Round, PairStep, LinkStep, Survivors, HandedOver, Deliveries, Seen, Traffic, Rounds, LinkRun, PairRun;
    var es := Traffic(n, script, k);
    RoundsAreLinkRuns(n, script, k, side);
    DeliveredThenQueued(n.pair.Get(side), Seen(n.pair, es, side));
  }

  /** Packet number i admitted during the run, on either link, is lost exactly when bit
      i mod 64 of the mask at the start is set. */
  lemma RoundsShareTheMask(n: Net, script: nat -> Oracle, k: nat)
    requires n.pair.mask.Some?
    ensures var fates := Fates(n.pair, Traffic(n, script, k));
            && (forall i :: 0 <= i < |fates| ==> fates[i] == n.pair.mask.value[i % 64])
            && Rounds(n, script, k).pair.mask == Some(RotateTimes(n.pair.mask.value, |fates|))
  {
    hide Round, PairStep;
    RoundsAreLinkRuns(n, script, k, ClientToServer);
    SharedMaskDecidesFates(n.pair, Traffic(n, script, k));
  }

  // ----- Where packets come from -----

  /** The endpoint at the sending end of the link had these bytes to send, as a packet of
      its own or, at the server, as a stateless one. */
  predicate PreparedBy(o: Oracle, side: Side, bytes: seq<Byte>) {
    match side
    case ClientToServer => o.clientUp && o.clientPrepare == Prepared(bytes)
    case ServerToClient => o.stateless == Some(bytes) || (o.serverUp && o.serverPrepare == Prepared(bytes))
  }

  ghost predicate WasPrepared(script: nat -> Oracle, k: nat, side: Side, bytes: seq<Byte>) {
    exists i: nat :: i < k && PreparedBy(script(i), side, bytes)
  }

  lemma SentWasPrepared(n: Net, o: Oracle)
    ensures var sent := Round(n, o).sent;
            sent.Some? ==> sent.value.PairOffer? && PreparedBy(o, sent.value.side, sent.value.bytes)
  {
    hide PairStep, Polled;
    ChoiceObeys(o, n.time);
  }

  /** One event leaves nothing in a queue but what was there or was submitted. */
  lemma EventAddsOne(p: Pair, e: PairEvent, side: Side)
    ensures forall x :: x in PairStep(p, e).Get(side).queue ==>
              x in p.Get(side).queue || (e.PairOffer? && e.side == side && x.bytes == e.bytes)
  {
  }

  /** Nothing is made up: from an empty link on, whatever is queued on it or was handed over
      from it was prepared, byte for byte, by the endpoint at its other end. */
  lemma {:induction false} NothingIsMadeUp(n: Net, script: nat -> Oracle, k: nat, side: Side)
    requires n.pair.Get(side).queue == []
    ensures forall x :: x in Rounds(n, script, k).pair.Get(side).queue ==> WasPrepared(script, k, side, x.bytes)
    ensures forall d :: d in Deliveries(n, script, k) && d.side == side ==>
              WasPrepared(script, k, side, d.packet.bytes)
  {
    hide Round, PairStep, PreparedBy;
    if k > 0 {
      NothingIsMadeUp(n, script, k - 1, side);
      var before, o := Rounds(n, script, k - 1), script(k - 1);
      RoundIsOneEvent(before, o);
      SentWasPrepared(before, o);
      var e := EventOf(Round(before, o));
      if e.Some? {
        EventAddsOne(before.pair, e.value, side);
      }
    }
  }
}
