/**
 Whole runs of links: the closed form of the queue's clock, delivery in order
 without invention or duplication, the rate bound, and one loss mask shared by
 two links.
 */
module LinkRuns {
  import opened Words
  import opened SimLink

  // ----- Runs of one link, whatever decides the losses -----

  datatype LinkEvent =
    | Offer(bytes: seq<Byte>, now: nat, lost: bool)
    | Take(now: nat)

  /** A packet that found room: when it was submitted, how long it takes to
      transmit, when its transmission ends, and whether it is lost. */
  datatype Admission = Admission(now: nat, transmit: nat, finish: nat, lost: bool, bytes: seq<Byte>)

  datatype LinkTrace = LinkTrace(link: LinkValue, admitted: seq<Admission>, delivered: seq<PacketValue>)

  function LinkStep(t: LinkTrace, e: LinkEvent): LinkTrace {
    var l := t.link;
    match e
    case Offer(bytes, now, lost) =>
      var after := Submitted(l, bytes, now, lost);
      if Admits(l, now) then
        var x := Admission(now, TransmitTime(l.picosecPerByte, |bytes|), Finish(l, |bytes|, now), lost, bytes);
        LinkTrace(after, t.admitted + [x], t.delivered)
      else
        t.(link := after)
    case Take(now) =>
      if HasArrived(l, now) then LinkTrace(Dequeued(l, now), t.admitted, t.delivered + [l.queue[0]]) else t
  }

  function LinkRun(l: LinkValue, es: seq<LinkEvent>): LinkTrace {
    if es == [] then LinkTrace(l, [], []) else LinkStep(LinkRun(l, es[..|es| - 1]), es[|es| - 1])
  }

  function SumTransmit(a: seq<Admission>): nat {
    if a == [] then 0 else SumTransmit(a[..|a| - 1]) + a[|a| - 1].transmit
  }

  /** The packets that reach the queue, with their arrival times. */
  function Survivors(a: seq<Admission>, latency: nat): seq<PacketValue> {
    if a == [] then []
    else
      var last := a[|a| - 1];
      Survivors(a[..|a| - 1], latency) + if last.lost then [] else [PacketValue(last.finish + latency, last.bytes)]
  }

  lemma {:induction false} RunKeepsParameters(l: LinkValue, es: seq<LinkEvent>)
    ensures var r := LinkRun(l, es).link;
            && r.latency == l.latency && r.picosecPerByte == l.picosecPerByte && r.queueDelayMax == l.queueDelayMax
  {
    if es != [] {
      RunKeepsParameters(l, es[..|es| - 1]);
    }
  }

  lemma {:induction false} SumTransmitFrom(a: seq<Admission>, x: Admission, k: nat)
    requires k <= |a|
    ensures SumTransmit((a + [x])[k..]) == SumTransmit(a[k..]) + x.transmit
  {
    var s := (a + [x])[k..];
    assert s[..|s| - 1] == a[k..];
  }

  // ----- The clock -----

  /** Value number k < |a| is what the clock would read had the queue been empty
      when packet k was submitted; value number |a| is what it would read had the
      queue never been empty. */
  ghost function ClockBound(start: nat, a: seq<Admission>, k: nat): nat
    requires k <= |a|
  {
    if k == |a| then start + SumTransmit(a) else a[k].now + SumTransmit(a[k..])
  }

  /** The clock of the queue is the largest of the bounds, after any sequence of
      submits and dequeues and whatever order the submit times come in. Lost
      packets count; packets refused for congestion do not. */
  lemma {:induction false} QueueTimeClosedForm(l: LinkValue, es: seq<LinkEvent>)
    ensures var t := LinkRun(l, es);
            && (forall k: nat :: k <= |t.admitted| ==> ClockBound(l.queueTime, t.admitted, k) <= t.link.queueTime)
            && exists k: nat :: k <= |t.admitted| && ClockBound(l.queueTime, t.admitted, k) == t.link.queueTime
  {
    var t := LinkRun(l, es);
    if es == [] {
      assert ClockBound(l.queueTime, t.admitted, 0) == t.link.queueTime;
    } else {
      var before := LinkRun(l, es[..|es| - 1]);
      QueueTimeClosedForm(l, es[..|es| - 1]);
      match es[|es| - 1]
      case Take(_) =>
      case Offer(_, now, _) =>
        if Admits(before.link, now) {
          ClockAfterAdmission(l.queueTime, before.admitted, t.admitted[|before.admitted|], before.link.queueTime);
        }
    }
  }

  lemma ClockAfterAdmission(start: nat, a: seq<Admission>, x: Admission, clock: nat)
    requires forall k: nat :: k <= |a| ==> ClockBound(start, a, k) <= clock
    requires exists k: nat :: k <= |a| && ClockBound(start, a, k) == clock
    ensures var c := (if x.now > clock then x.now else clock) + x.transmit;
            && (forall k: nat :: k <= |a| + 1 ==> ClockBound(start, a + [x], k) <= c)
            && exists k: nat :: k <= |a| + 1 && ClockBound(start, a + [x], k) == c
  {
    var b := a + [x];
    assert b[..|b| - 1] == a;
    assert b[|a|..] == [x] && [x][..0] == [];
    assert ClockBound(start, b, |b|) == ClockBound(start, a, |a|) + x.transmit;
    assert SumTransmit([x]) == x.transmit;
    assert ClockBound(start, b, |a|) == x.now + x.transmit;
    forall k: nat | k < |a|
      ensures ClockBound(start, b, k) == ClockBound(start, a, k) + x.transmit
    {
      SumTransmitFrom(a, x, k);
    }
    var k: nat :| k <= |a| && ClockBound(start, a, k) == clock;
    var c := (if x.now > clock then x.now else clock) + x.transmit;
    var best := if x.now > clock then |a| else if k == |a| then |b| else k;
    assert ClockBound(start, b, best) == c;
  }

  /** The queue holds as much as the limit allows, by the bounds of the clock. */
  ghost predicate Congested(l: LinkValue, a: seq<Admission>, now: nat) {
    l.queueDelayMax > 0 && exists k: nat :: k <= |a| && ClockBound(l.queueTime, a, k) >= now + l.queueDelayMax
  }

  /** After any run a packet is refused exactly if what was admitted before it still
      takes as long as the limit, or longer; otherwise it is admitted as it is. */
  lemma RefusedExactly(l: LinkValue, es: seq<LinkEvent>, bytes: seq<Byte>, now: nat, lost: bool)
    ensures var t, u := LinkRun(l, es), LinkRun(l, es + [Offer(bytes, now, lost)]);
            if Congested(l, t.admitted, now) then
              u.admitted == t.admitted && u.link == t.link.(dropped := t.link.dropped + 1)
            else
              && |u.admitted| == |t.admitted| + 1 && u.admitted[..|t.admitted|] == t.admitted
              && var x := u.admitted[|t.admitted|];
                 x.now == now && x.bytes == bytes && x.lost == lost
  {
    hide LinkRun, ClockBound, Finish, TransmitTime;
    var t, u := LinkRun(l, es), LinkRun(l, es + [Offer(bytes, now, lost)]);
    RunOneMore(l, es, Offer(bytes, now, lost));
    RunKeepsParameters(l, es);
    QueueTimeClosedForm(l, es);
    assert Congested(l, t.admitted, now) <==> l.queueDelayMax > 0 && t.link.queueTime >= now + l.queueDelayMax;
  }

  lemma RunOneMore(l: LinkValue, es: seq<LinkEvent>, e: LinkEvent)
    ensures LinkRun(l, es + [e]) == LinkStep(LinkRun(l, es), e)
  {
    hide LinkStep;
    assert (es + [e])[..|es|] == es;
  }

  // ----- First in, first out -----

  /** Nothing is invented, duplicated or reordered: what was delivered followed by
      what still waits is what waited at first followed by the surviving admissions. */
  lemma {:induction false} DeliveredThenQueued(l: LinkValue, es: seq<LinkEvent>)
    ensures var t := LinkRun(l, es);
            t.delivered + t.link.queue == l.queue + Survivors(t.admitted, l.latency)
  {
    if es != [] {
      var before := LinkRun(l, es[..|es| - 1]);
      var t := LinkRun(l, es);
      DeliveredThenQueued(l, es[..|es| - 1]);
      RunKeepsParameters(l, es[..|es| - 1]);
      match es[|es| - 1]
      case Take(now) =>
        TakeKeepsSequence(before, now);
      case Offer(bytes, now, lost) =>
        OfferExtendsSequence(before, es[|es| - 1]);
    }
  }

  lemma OfferExtendsSequence(t: LinkTrace, e: LinkEvent)
    requires e.Offer?
    ensures var u := LinkStep(t, e);
            var added := u.link.queue[|t.link.queue|..];
            && u.delivered + u.link.queue == t.delivered + t.link.queue + added
            && Survivors(u.admitted, t.link.latency) == Survivors(t.admitted, t.link.latency) + added
  {
    var u := LinkStep(t, e);
    if Admits(t.link, e.now) {
      assert u.admitted[..|u.admitted| - 1] == t.admitted;
    }
  }

  lemma TakeKeepsSequence(t: LinkTrace, now: nat)
    ensures var u := LinkStep(t, Take(now));
            && u.delivered + u.link.queue == t.delivered + t.link.queue && u.admitted == t.admitted
            && u.link.queueTime == t.link.queueTime && u.link.latency == t.link.latency
  {
    if HasArrived(t.link, now) {
      assert t.delivered + [t.link.queue[0]] + t.link.queue[1..] == t.delivered + t.link.queue;
    }
  }

  lemma StepCounts(t: LinkTrace, e: LinkEvent, latency: nat)
    ensures var u := LinkStep(t, e);
            && u.link.sent - t.link.sent == |Survivors(u.admitted, latency)| - |Survivors(t.admitted, latency)|
            && u.link.sent + u.link.dropped == t.link.sent + t.link.dropped + if e.Offer? then 1 else 0
  {
    var u := LinkStep(t, e);
    if e.Offer? && Admits(t.link, e.now) {
      assert u.admitted[..|u.admitted| - 1] == t.admitted;
    }
  }

  /** Every submitted packet is counted exactly once, as sent or as dropped. */
  lemma {:induction false} SentAndDropped(l: LinkValue, es: seq<LinkEvent>)
    ensures var t := LinkRun(l, es);
            && t.link.sent == l.sent + |Survivors(t.admitted, l.latency)|
            && t.link.sent + t.link.dropped == l.sent + l.dropped + CountOffers(es)
  {
    hide LinkStep, Survivors;
    if es == [] {
      NoSurvivors(l.latency);
    } else {
      SentAndDropped(l, es[..|es| - 1]);
      StepCounts(LinkRun(l, es[..|es| - 1]), es[|es| - 1], l.latency);
    }
  }

  lemma NoSurvivors(latency: nat)
    ensures Survivors([], latency) == []
  {
  }

  function CountOffers(es: seq<LinkEvent>): nat {
    if es == [] then 0 else CountOffers(es[..|es| - 1]) + if es[|es| - 1].Offer? then 1 else 0
  }

  // ----- The rate bound -----

  lemma {:induction false} FinishTimes(l: LinkValue, es: seq<LinkEvent>)
    ensures var t := LinkRun(l, es);
            && (t.admitted != [] ==> t.admitted[|t.admitted| - 1].finish == t.link.queueTime)
            && (forall k :: 0 < k < |t.admitted| ==>
                  t.admitted[k - 1].finish + t.admitted[k].transmit <= t.admitted[k].finish)
            && (forall k :: 0 <= k < |t.admitted| ==>
                  t.admitted[k].transmit >= 1 && t.admitted[k].now + t.admitted[k].transmit <= t.admitted[k].finish)
  {
    if es != [] {
      FinishTimes(l, es[..|es| - 1]);
    }
  }

  /** Two admitted packets finish at least as far apart as it takes to transmit
      everything admitted after the first, up to and including the second. */
  lemma {:induction false} FinishesApart(l: LinkValue, es: seq<LinkEvent>, i: nat, j: nat)
    requires i <= j < |LinkRun(l, es).admitted|
    ensures var a := LinkRun(l, es).admitted;
            a[j].finish - a[i].finish >= SumTransmit(a[i + 1..j + 1])
    decreases j
  {
    hide LinkRun;
    var a := LinkRun(l, es).admitted;
    FinishTimes(l, es);
    if i < j {
      FinishesApart(l, es, i, j - 1);
      var s := a[i + 1..j + 1];
      assert s[..|s| - 1] == a[i + 1..j];
    }
  }

  /** The admission that survivor number i comes from. */
  function AdmissionOf(a: seq<Admission>, latency: nat, i: nat): (p: nat)
    requires i < |Survivors(a, latency)|
    ensures p < |a| && !a[p].lost && Survivors(a, latency)[i] == PacketValue(a[p].finish + latency, a[p].bytes)
  {
    var earlier := a[..|a| - 1];
    if i < |Survivors(earlier, latency)| then AdmissionOf(earlier, latency, i) else |a| - 1
  }

  lemma {:induction false} AdmissionsInOrder(a: seq<Admission>, latency: nat, i: nat, j: nat)
    requires i < j < |Survivors(a, latency)|
    ensures AdmissionOf(a, latency, i) < AdmissionOf(a, latency, j)
  {
    var earlier := a[..|a| - 1];
    if j < |Survivors(earlier, latency)| {
      AdmissionsInOrder(earlier, latency, i, j);
    }
  }

  /** The admission that delivered packet number i comes from; what waited before the
      run has none. */
  function Source(l: LinkValue, es: seq<LinkEvent>, i: nat): (p: nat)
    requires |l.queue| <= i < |LinkRun(l, es).delivered|
    ensures var t := LinkRun(l, es);
            && p < |t.admitted| && !t.admitted[p].lost
            && t.delivered[i] == PacketValue(t.admitted[p].finish + l.latency, t.admitted[p].bytes)
  {
    hide LinkRun, Survivors;
    var t := LinkRun(l, es);
    DeliveredThenQueued(l, es);
    assert t.delivered[i] == (t.delivered + t.link.queue)[i];
    AdmissionOf(t.admitted, l.latency, i - |l.queue|)
  }

  /** Any two delivered packets arrive at least as far apart as it takes to transmit
      everything admitted after the first, up to and including the second, packets
      lost on the way included. */
  lemma RateBound(l: LinkValue, es: seq<LinkEvent>, i: nat, j: nat)
    requires |l.queue| <= i < j < |LinkRun(l, es).delivered|
    ensures var t := LinkRun(l, es);
            var p, q := Source(l, es, i), Source(l, es, j);
            p < q && t.delivered[j].arrival - t.delivered[i].arrival >= SumTransmit(t.admitted[p + 1..q + 1])
  {
    hide LinkRun, Survivors, SumTransmit;
    var t := LinkRun(l, es);
    DeliveredThenQueued(l, es);
    assert |t.delivered + t.link.queue| == |l.queue| + |Survivors(t.admitted, l.latency)|;
    AdmissionsInOrder(t.admitted, l.latency, i - |l.queue|, j - |l.queue|);
    FinishesApart(l, es, Source(l, es, i), Source(l, es, j));
  }

  // ----- Throughput -----

  function SumBytes(a: seq<Admission>): nat {
    if a == [] then 0 else SumBytes(a[..|a| - 1]) + |a[|a| - 1].bytes|
  }

  ghost predicate TakeTheirTime(a: seq<Admission>, picosecPerByte: nat) {
    forall k :: 0 <= k < |a| ==> TakesTime(picosecPerByte, |a[k].bytes|, a[k].transmit)
  }

  lemma {:induction false} AdmissionsTakeTheirTime(l: LinkValue, es: seq<LinkEvent>)
    ensures TakeTheirTime(LinkRun(l, es).admitted, l.picosecPerByte)
  {
    hide TakesTime, TransmitTime, Finish, Admits;
    if es != [] {
      AdmissionsTakeTheirTime(l, es[..|es| - 1]);
      RunKeepsParameters(l, es[..|es| - 1]);
      AdmissionTakesItsTime(LinkRun(l, es[..|es| - 1]), es[|es| - 1]);
    }
  }

  lemma AdmissionTakesItsTime(t: LinkTrace, e: LinkEvent)
    requires TakeTheirTime(t.admitted, t.link.picosecPerByte)
    ensures TakeTheirTime(LinkStep(t, e).admitted, t.link.picosecPerByte)
  {
    hide TakesTime;
  }

  /** Packets take as long as their bytes do at the link's rate, up to one unit of time
      for each: for rounding down, or because none takes less than one. */
  lemma {:induction false} Throughput(a: seq<Admission>, picosecPerByte: nat)
    requires TakeTheirTime(a, picosecPerByte)
    ensures SumTransmit(a) * 0x10_0000 <= picosecPerByte * SumBytes(a) + |a| * 0x10_0000
    ensures a != [] ==> picosecPerByte * SumBytes(a) < SumTransmit(a) * 0x10_0000 + |a| * 0x10_0000
  {
    hide TakesTime;
    if a != [] {
      var earlier, last := a[..|a| - 1], a[|a| - 1];
      Throughput(earlier, picosecPerByte);
      OnePacketMore(picosecPerByte, SumBytes(earlier), |last.bytes|, last.transmit);
    } else {
      assert picosecPerByte * SumBytes(a) == 0;
    }
  }

  lemma OnePacketMore(picosecPerByte: nat, sum: nat, length: nat, t: nat)
    requires TakesTime(picosecPerByte, length, t)
    ensures picosecPerByte * (sum + length) <= picosecPerByte * sum + (t + 1) * 0x10_0000 - 1
    ensures picosecPerByte * (sum + length) >= picosecPerByte * sum + (t - 1) * 0x10_0000
  {
    assert picosecPerByte * (sum + length) == picosecPerByte * sum + picosecPerByte * length;
  }

  /** What a link admits in a run keeps its transmitter busy for as long as its bytes take. */
  lemma RunThroughput(l: LinkValue, es: seq<LinkEvent>, i: nat, j: nat)
    requires i <= j <= |LinkRun(l, es).admitted|
    ensures var a := LinkRun(l, es).admitted[i..j];
            && SumTransmit(a) * 0x10_0000 <= l.picosecPerByte * SumBytes(a) + |a| * 0x10_0000
            && (a != [] ==> l.picosecPerByte * SumBytes(a) < SumTransmit(a) * 0x10_0000 + |a| * 0x10_0000)
  {
    hide LinkRun, SumTransmit, SumBytes;
    AdmissionsTakeTheirTime(l, es);
    Throughput(LinkRun(l, es).admitted[i..j], l.picosecPerByte);
  }

  /** So two delivered packets arrive at least as far apart as the bytes admitted after
      the first, up to and including the second, take at the link's rate. */
  lemma ByteRateBound(l: LinkValue, es: seq<LinkEvent>, i: nat, j: nat)
    requires |l.queue| <= i < j < |LinkRun(l, es).delivered|
    ensures var t := LinkRun(l, es);
            var p, q := Source(l, es, i), Source(l, es, j);
            && p < q
            && l.picosecPerByte * SumBytes(t.admitted[p + 1..q + 1])
               < (t.delivered[j].arrival - t.delivered[i].arrival + (q - p)) * 0x10_0000
  {
    hide LinkRun, SumTransmit, SumBytes, Source;
    RateBound(l, es, i, j);
    RunThroughput(l, es, Source(l, es, i) + 1, Source(l, es, j) + 1);
  }

  /** 1440 bytes on an idle link of 800000 picoseconds per byte and latency 10000. */
  lemma TestLinkArrival(l: LinkValue, bytes: seq<Byte>, now: nat)
    requires l.queue == [] && l.picosecPerByte == 800_000 && l.latency == 10_000 && l.queueDelayMax == 0
    requires l.queueTime <= now && |bytes| == 1440
    ensures LinkRun(l, [Offer(bytes, now, false)]).link.queue == [PacketValue(now + 11_098, bytes)]
  {
    RunOneMore(l, [], Offer(bytes, now, false));
    assert [] + [Offer(bytes, now, false)] == [Offer(bytes, now, false)];
  }

  ghost predicate StrictlyIncreasing(ps: seq<PacketValue>) {
    forall i, j :: 0 <= i < j < |ps| ==> ps[i].arrival < ps[j].arrival
  }

  /** Packets that arrive strictly one after the other within [lo, hi) are at most hi - lo. */
  lemma {:induction false} Pigeonhole(ps: seq<PacketValue>, lo: nat, hi: nat)
    requires StrictlyIncreasing(ps)
    requires forall p :: p in ps ==> lo <= p.arrival < hi
    ensures ps != [] ==> |ps| <= hi - lo
  {
    if |ps| > 0 {
      var last := ps[|ps| - 1];
      assert last in ps;
      forall p | p in ps[..|ps| - 1]
        ensures lo <= p.arrival < last.arrival
      {
        assert p in ps;
      }
      Pigeonhole(ps[..|ps| - 1], lo, last.arrival);
    }
  }

  function Arriving(ps: seq<PacketValue>, lo: nat, hi: nat): seq<PacketValue> {
    if ps == [] then []
    else
      var last := ps[|ps| - 1];
      Arriving(ps[..|ps| - 1], lo, hi) + if lo <= last.arrival < hi then [last] else []
  }

  lemma {:induction false} ArrivingIsIncreasing(ps: seq<PacketValue>, lo: nat, hi: nat)
    requires StrictlyIncreasing(ps)
    ensures StrictlyIncreasing(Arriving(ps, lo, hi))
    ensures forall p :: p in Arriving(ps, lo, hi) ==> p in ps && lo <= p.arrival < hi
  {
    if ps != [] {
      ArrivingIsIncreasing(ps[..|ps| - 1], lo, hi);
      var rest := Arriving(ps[..|ps| - 1], lo, hi);
      forall i | 0 <= i < |rest|
        ensures rest[i].arrival < ps[|ps| - 1].arrival
      {
        assert rest[i] in rest;
      }
    }
  }

  /** In order, and none later than the given time. */
  ghost predicate IncreasingTo(ps: seq<PacketValue>, latest: nat) {
    StrictlyIncreasing(ps) && forall i :: 0 <= i < |ps| ==> ps[i].arrival <= latest
  }

  lemma OfferKeepsSequence(t: LinkTrace, e: LinkEvent)
    requires e.Offer?
    requires IncreasingTo(t.delivered + t.link.queue, t.link.queueTime + t.link.latency)
    ensures var u := LinkStep(t, e); IncreasingTo(u.delivered + u.link.queue, u.link.queueTime + u.link.latency)
  {
    var u := LinkStep(t, e);
    if |u.link.queue| > |t.link.queue| {
      assert u.delivered + u.link.queue == (t.delivered + t.link.queue) + [u.link.queue[|t.link.queue|]];
    }
  }

  lemma {:induction false} RunStaysOrdered(l: LinkValue, es: seq<LinkEvent>)
    requires Ordered(l)
    ensures var t := LinkRun(l, es);
            IncreasingTo(t.delivered + t.link.queue, t.link.queueTime + t.link.latency)
  {
    hide LinkStep;
    if es == [] {
      assert [] + l.queue == l.queue;
    } else {
      RunStaysOrdered(l, es[..|es| - 1]);
      match es[|es| - 1]
      case Take(now) =>
        TakeKeepsSequence(LinkRun(l, es[..|es| - 1]), now);
      case Offer(_, _, _) =>
        OfferKeepsSequence(LinkRun(l, es[..|es| - 1]), es[|es| - 1]);
    }
  }

  /** After any run a dequeue delivers a packet exactly if one has arrived, and then the
      one that arrived first. */
  lemma TakenExactly(l: LinkValue, es: seq<LinkEvent>, now: nat)
    requires Ordered(l)
    ensures var t, u := LinkRun(l, es), LinkRun(l, es + [Take(now)]);
            if forall p :: p in t.link.queue ==> now < p.arrival then
              u == t
            else
              && t.link.queue != [] && u.delivered == t.delivered + [t.link.queue[0]]
              && u.link.queue == t.link.queue[1..]
              && t.link.queue[0].arrival <= now
              && forall p :: p in t.link.queue ==> t.link.queue[0].arrival <= p.arrival
  {
    hide LinkRun;
    RunOneMore(l, es, Take(now));
    RunStaysOrdered(l, es);
    var t := LinkRun(l, es);
    var all := t.delivered + t.link.queue;
    forall i | 0 <= i < |t.link.queue|
      ensures t.link.queue[0].arrival <= t.link.queue[i].arrival
    {
      assert all[|t.delivered|] == t.link.queue[0] && all[|t.delivered| + i] == t.link.queue[i];
    }
    if t.link.queue != [] {
      assert t.link.queue[0] in t.link.queue;
    }
  }

  /** However the traffic is offered, at most hi - lo packets are delivered with
      an arrival time in [lo, hi). */
  lemma AtMostOneArrivalPerTick(l: LinkValue, es: seq<LinkEvent>, lo: nat, hi: nat)
    requires Ordered(l) && lo <= hi
    ensures |Arriving(LinkRun(l, es).delivered, lo, hi)| <= hi - lo
  {
    var t := LinkRun(l, es);
    RunStaysOrdered(l, es);
    var all := t.delivered + t.link.queue;
    assert forall i :: 0 <= i < |t.delivered| ==> t.delivered[i] == all[i];
    ArrivingIsIncreasing(t.delivered, lo, hi);
    Pigeonhole(Arriving(t.delivered, lo, hi), lo, hi);
  }

  // ----- Two links and one mask -----

  datatype Side = ClientToServer | ServerToClient

  datatype Pair = Pair(cToS: LinkValue, sToC: LinkValue, mask: Option<Mask>) {
    function Get(side: Side): LinkValue {
      match side case ClientToServer => cToS case ServerToClient => sToC
    }

    function With(side: Side, l: LinkValue): Pair {
      match side case ClientToServer => this.(cToS := l) case ServerToClient => this.(sToC := l)
    }
  }

  datatype PairEvent =
    | PairOffer(side: Side, bytes: seq<Byte>, now: nat)
    | PairTake(side: Side, now: nat)

  function PairSubmit(p: Pair, side: Side, bytes: seq<Byte>, now: nat): Pair {
    var l := p.Get(side);
    var q := p.With(side, Submitted(l, bytes, now, TakesLoss(p.mask)));
    if Admits(l, now) then q.(mask := Rotated(p.mask)) else q
  }

  function PairStep(p: Pair, e: PairEvent): Pair {
    match e
    case PairOffer(side, bytes, now) => PairSubmit(p, side, bytes, now)
    case PairTake(side, now) => p.With(side, Dequeued(p.Get(side), now))
  }

  function PairRun(p: Pair, es: seq<PairEvent>): Pair {
    if es == [] then p else PairStep(PairRun(p, es[..|es| - 1]), es[|es| - 1])
  }

  /** The fate of each packet admitted on either link, in order of admission. */
  function Fates(p: Pair, es: seq<PairEvent>): seq<bool> {
    if es == [] then []
    else
      var before := PairRun(p, es[..|es| - 1]);
      var e := es[|es| - 1];
      Fates(p, es[..|es| - 1]) +
      if e.PairOffer? && Admits(before.Get(e.side), e.now) then [TakesLoss(before.mask)] else []
  }

  /** In any interleaving of the two links, admission number i overall is lost
      exactly when bit i mod 64 of the starting mask is set, and the mask has been
      rotated once per admission: congestion consumes no bit. Without a mask
      nothing is lost. */
  lemma {:induction false} SharedMaskDecidesFates(p: Pair, es: seq<PairEvent>)
    ensures var fates := Fates(p, es);
            && (p.mask.None? ==> PairRun(p, es).mask.None? && forall i :: 0 <= i < |fates| ==> !fates[i])
            && (p.mask.Some? ==>
                  && PairRun(p, es).mask == Some(RotateTimes(p.mask.value, |fates|))
                  && forall i :: 0 <= i < |fates| ==> fates[i] == p.mask.value[i % 64])
  {
    if es != [] {
      SharedMaskDecidesFates(p, es[..|es| - 1]);
      if p.mask.Some? {
        RotateTimesBit(p.mask.value, |Fates(p, es[..|es| - 1])|, 0);
      }
    }
  }

  /** The mask is back at its start after every 64 admissions. */
  lemma SharedMaskReturns(p: Pair, es: seq<PairEvent>)
    requires |Fates(p, es)| % 64 == 0
    ensures PairRun(p, es).mask == p.mask
  {
    SharedMaskDecidesFates(p, es);
    if p.mask.Some? {
      FullCircles(p.mask.value, |Fates(p, es)|);
    }
  }

  /** An event of the pair as the link it goes to sees it. */
  function SeenAs(p: Pair, e: PairEvent): LinkEvent {
    match e
    case PairOffer(_, bytes, now) => Offer(bytes, now, TakesLoss(p.mask))
    case PairTake(_, now) => Take(now)
  }

  /** What one of the two links sees of a run of the pair. */
  function Seen(p: Pair, es: seq<PairEvent>, side: Side): seq<LinkEvent> {
    if es == [] then []
    else
      var e := es[|es| - 1];
      var earlier := Seen(p, es[..|es| - 1], side);
      if e.side == side then earlier + [SeenAs(PairRun(p, es[..|es| - 1]), e)] else earlier
  }

  lemma StepsAlone(p: Pair, e: PairEvent, side: Side, t: LinkTrace)
    requires t.link == p.Get(side)
    ensures PairStep(p, e).Get(side) == if e.side == side then LinkStep(t, SeenAs(p, e)).link else t.link
  {
  }

  /** Each link of the pair runs on its own: every law of a single link's run
      holds for it, with the losses the shared mask dealt to it. */
  lemma {:induction false} EachLinkRunsAlone(p: Pair, es: seq<PairEvent>, side: Side)
    ensures PairRun(p, es).Get(side) == LinkRun(p.Get(side), Seen(p, es, side)).link
  {
    if es != [] {
      var earlier := es[..|es| - 1];
      EachLinkRunsAlone(p, earlier, side);
      StepsAlone(PairRun(p, earlier), es[|es| - 1], side, LinkRun(p.Get(side), Seen(p, earlier, side)));
      var s := Seen(p, es, side);
      if es[|es| - 1].side == side {
        assert s[..|s| - 1] == Seen(p, earlier, side);
      }
    }
  }
}
