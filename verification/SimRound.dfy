/**
 One round of the two-link simulation. The QUIC endpoints are an oracle: a round is
 given what they would answer.
 */
module SimRound {
  import opened Words
  import opened SimLink
  import opened LinkRuns

  const STATELESS_DELAY: nat := 100000
  const IDLE_STEP: nat := 5000

  /** The answer of an endpoint asked to prepare a packet; no bytes means nothing to send. */
  datatype Prepare = PrepareFailed | Prepared(bytes: seq<Byte>)

  /** What the endpoints answer during one round. An endpoint is up when it exists and
      is not disconnected; that is read when sending, and again when the round idles. */
  datatype Oracle = Oracle(
    stateless: Option<seq<Byte>>,
    clientUp: bool, clientPrepare: Prepare,
    serverUp: bool, serverPrepare: Prepare,
    clientUpLater: bool, clientWake: nat,
    serverUpLater: bool, serverWake: nat,
    accepts: bool)

  /** Both endpoints are up with nothing to send and wake soon. */
  const SILENT: Oracle := Oracle(None, true, Prepared([]), true, Prepared([]), true, 0, true, 0, true)

  datatype Delivery = Delivery(side: Side, packet: PacketValue, at: nat)

  datatype Net = Net(pair: Pair, time: nat)

  /** Everything one round does: `ok` is the return value zero, `sent` the packet
      submitted, `delivered` the packet handed to an endpoint and the simulated
      time at which that is done. */
  datatype Outcome = Outcome(net: Net, ok: bool, active: bool, sent: Option<PairEvent>, delivered: Option<Delivery>)

  // ----- The value of a round -----

  datatype Choice = Send(side: Side, bytes: seq<Byte>, delay: nat) | Idle(failed: bool)

  function ServerChoice(o: Oracle): Choice {
    if !o.serverUp then Idle(false)
    else match o.serverPrepare
      case PrepareFailed => Idle(true)
      case Prepared(bytes) => if bytes == [] then Idle(false) else Send(ServerToClient, bytes, 0)
  }

  /** Who sends: a stateless packet of the server first, then the client, then the server. */
  function Choose(o: Oracle): Choice {
    if o.stateless.Some? && o.stateless.value != [] then Send(ServerToClient, o.stateless.value, STATELESS_DELAY)
    else if !o.clientUp then ServerChoice(o)
    else match o.clientPrepare
      case PrepareFailed => Idle(true)
      case Prepared(bytes) => if bytes == [] then ServerChoice(o) else Send(ClientToServer, bytes, 0)
  }

  /** The next time is one step after the bumped time, unless somebody is up and everybody
      up wants to wake later: then it is the first of those wake times. */
  ghost predicate WakesFirst(o: Oracle, bumped: nat, next: nat) {
    var soonest := bumped + IDLE_STEP;
    && next >= soonest
    && (next == soonest <==>
          || !(o.clientUpLater || o.serverUpLater)
          || (o.clientUpLater && o.clientWake <= soonest)
          || (o.serverUpLater && o.serverWake <= soonest))
    && (next > soonest ==>
          && (o.clientUpLater ==> next <= o.clientWake) && (o.serverUpLater ==> next <= o.serverWake)
          && ((o.clientUpLater && next == o.clientWake) || (o.serverUpLater && next == o.serverWake)))
  }

  lemma OneWakesFirst(o: Oracle, bumped: nat, a: nat, b: nat)
    requires WakesFirst(o, bumped, a) && WakesFirst(o, bumped, b)
    ensures a == b
  {
  }

  /** The time an idle round would jump to if nothing arrived before: the earlier wake
      time of the endpoints still up, but at least one step after the bumped time. */
  function WakeTime(o: Oracle, bumped: nat): (next: nat)
    ensures WakesFirst(o, bumped, next)
  {
    var wake :=
      if o.clientUpLater then
        if o.serverUpLater && o.serverWake < o.clientWake then o.serverWake else o.clientWake
      else if o.serverUpLater then o.serverWake
      else bumped;
    if wake < bumped + IDLE_STEP then bumped + IDLE_STEP else wake
  }

  /** The link that delivers next, if one does so before the given time. On a tie
      the packet for the server goes first. */
  function Earlier(p: Pair, next: nat): (side: Option<Side>)
    ensures side.Some? ==> HasArrived(p.Get(side.value), NextArrival(p.Get(side.value), next))
  {
    var toClient := NextArrival(p.sToC, next);
    var toServer := NextArrival(p.cToS, next);
    if toClient < toServer && toClient < next then Some(ServerToClient)
    else if toServer < next then Some(ClientToServer)
    else None
  }

  /** Time moves to the next arrival, or to the given time when nothing arrives before. */
  function Polled(p: Pair, next: nat): (Net, Option<Delivery>) {
    match Earlier(p, next)
    case None => (Net(p, next), None)
    case Some(side) =>
      var at := NextArrival(p.Get(side), next);
      (Net(PairStep(p, PairTake(side, at)), at), Some(Delivery(side, p.Get(side).queue[0], at)))
  }

  function IdleRound(n: Net, o: Oracle, failed: bool): Outcome {
    var (after, delivered) := Polled(n.pair, WakeTime(o, n.time + IDLE_STEP));
    if delivered.Some? then Outcome(after, o.accepts, true, None, delivered)
    else Outcome(after, !failed, false, None, None)
  }

  function Round(n: Net, o: Oracle): Outcome {
    match Choose(o)
    case Send(side, bytes, delay) =>
      var e := PairOffer(side, bytes, n.time + delay);
      Outcome(Net(PairStep(n.pair, e), n.time + delay), true, true, Some(e), None)
    case Idle(failed) => IdleRound(n, o, failed)
  }

  lemma RoundSends(n: Net, o: Oracle, side: Side, bytes: seq<Byte>, delay: nat)
    requires Choose(o) == Send(side, bytes, delay)
    ensures var e := PairOffer(side, bytes, n.time + delay);
            Round(n, o) == Outcome(Net(PairStep(n.pair, e), n.time + delay), true, true, Some(e), None)
  {
  }

  lemma RoundIdles(n: Net, o: Oracle, failed: bool)
    requires Choose(o) == Idle(failed)
    ensures Round(n, o) == IdleRound(n, o, failed)
  {
  }

  lemma IdleRoundPolls(n: Net, o: Oracle, failed: bool, after: Net, delivered: Option<Delivery>)
    requires Polled(n.pair, WakeTime(o, n.time + IDLE_STEP)) == (after, delivered)
    ensures IdleRound(n, o, failed)
         == Outcome(after, if delivered.Some? then o.accepts else !failed, delivered.Some?, None, delivered)
  {
  }

  // ----- What a round does, from the answers alone -----

  predicate Stateless(o: Oracle) {
    o.stateless.Some? && o.stateless.value != []
  }

  /** Nothing to send, or not up. */
  predicate Silent(up: bool, p: Prepare) {
    !up || p == Prepared([])
  }

  predicate Offers(up: bool, p: Prepare) {
    up && p.Prepared? && p.bytes != []
  }

  /** An endpoint that was asked failed: the client, or the server after a silent client. */
  predicate Failing(o: Oracle) {
    && !Stateless(o)
    && ((o.clientUp && o.clientPrepare.PrepareFailed?)
        || (Silent(o.clientUp, o.clientPrepare) && o.serverUp && o.serverPrepare.PrepareFailed?))
  }

  /** The client sends only on the link to the server, the server only on the link to the
      client, each what it prepared and at the time the round starts; a stateless packet
      takes precedence over both and the client over the server. */
  predicate Sends(o: Oracle, now: nat, sent: Option<PairEvent>) {
    sent ==
    if Stateless(o) then Some(PairOffer(ServerToClient, o.stateless.value, now + 100_000))
    else if Offers(o.clientUp, o.clientPrepare) then Some(PairOffer(ClientToServer, o.clientPrepare.bytes, now))
    else if Silent(o.clientUp, o.clientPrepare) && Offers(o.serverUp, o.serverPrepare) then
      Some(PairOffer(ServerToClient, o.serverPrepare.bytes, now))
    else None
  }

  /** What is delivered is the first of all packets queued that arrives before the given
      time, the packet for the server on a tie; nothing only if there is none. */
  ghost predicate Delivers(p: Pair, until: nat, delivered: Option<Delivery>) {
    match delivered
    case None => !ArrivesBefore(p.cToS, until) && !ArrivesBefore(p.sToC, until)
    case Some(d) =>
      && d.packet in p.Get(d.side).queue
      && d.at == d.packet.arrival < until
      && !ArrivesBefore(p.cToS, d.at) && !ArrivesBefore(p.sToC, d.at)
      && (d.side == ServerToClient ==> !ArrivesBefore(p.cToS, d.at + 1))
  }

  /** Everything a round does. */
  ghost predicate RoundObeys(n: Net, o: Oracle, r: Outcome) {
    && Sends(o, n.time, r.sent)
    && (r.active <==> r.sent.Some? || r.delivered.Some?)
    && if r.sent.Some? then
         r.ok && r.delivered.None? && r.net == Net(PairStep(n.pair, r.sent.value), r.sent.value.now)
       else
         exists wake: nat :: WakesFirst(o, n.time + 5_000, wake) && IdleObeys(n, o, wake, r)
  }

  ghost predicate IdleObeys(n: Net, o: Oracle, wake: nat, r: Outcome) {
    && Delivers(n.pair, wake, r.delivered)
    && match r.delivered
       case None => r.net == Net(n.pair, wake) && (r.ok <==> !Failing(o))
       case Some(d) => r.net == Net(PairStep(n.pair, PairTake(d.side, d.at)), d.at) && (r.ok <==> o.accepts)
  }

  lemma ChoiceObeys(o: Oracle, now: nat)
    ensures match Choose(o)
            case Send(side, bytes, delay) => Sends(o, now, Some(PairOffer(side, bytes, now + delay)))
            case Idle(failed) => Sends(o, now, None) && (failed <==> Failing(o))
  {
  }

  lemma PolledObeys(p: Pair, until: nat)
    requires Ordered(p.cToS) && Ordered(p.sToC)
    ensures var (after, delivered) := Polled(p, until);
            && Delivers(p, until, delivered)
            && after == match delivered
                        case None => Net(p, until)
                        case Some(d) => Net(PairStep(p, PairTake(d.side, d.at)), d.at)
  {
    hide PairStep, Ordered;
    var (_, delivered) := Polled(p, until);
    EarlyArrivalAtHead(p.cToS, until, until);
    EarlyArrivalAtHead(p.sToC, until, until);
    if delivered.Some? {
      var at := delivered.value.at;
      EarlyArrivalAtHead(p.cToS, at, until);
      EarlyArrivalAtHead(p.sToC, at, until);
      EarlyArrivalAtHead(p.cToS, at + 1, until);
    }
  }

  /** The round obeys, and it is the only outcome that does. */
  lemma RoundMeets(n: Net, o: Oracle)
    requires Ordered(n.pair.cToS) && Ordered(n.pair.sToC)
    ensures RoundObeys(n, o, Round(n, o))
  {
    hide Choose, Polled, PairStep, Delivers, Ordered, Failing, Sends, WakesFirst;
    ChoiceObeys(o, n.time);
    var wake := WakeTime(o, n.time + IDLE_STEP);
    PolledObeys(n.pair, wake);
    if Choose(o).Idle? {
      var (after, delivered) := Polled(n.pair, wake);
      IdleRoundPolls(n, o, Choose(o).failed, after, delivered);
      assert IdleObeys(n, o, wake, Round(n, o));
    }
  }

  lemma OneDelivery(p: Pair, until: nat, a: Option<Delivery>, b: Option<Delivery>)
    requires Ordered(p.cToS) && Ordered(p.sToC) && Delivers(p, until, a) && Delivers(p, until, b)
    ensures a == b
  {
  }

  lemma OneOutcome(n: Net, o: Oracle, r: Outcome, s: Outcome)
    requires Ordered(n.pair.cToS) && Ordered(n.pair.sToC) && RoundObeys(n, o, r) && RoundObeys(n, o, s)
    ensures r == s
  {
    hide PairStep, Delivers, Ordered, Failing, WakesFirst;
    if r.sent.None? {
      var v: nat :| WakesFirst(o, n.time + 5_000, v) && IdleObeys(n, o, v, r);
      var w: nat :| WakesFirst(o, n.time + 5_000, w) && IdleObeys(n, o, w, s);
      OneWakesFirst(o, n.time + 5_000, v, w);
      OneDelivery(n.pair, v, r.delivered, s.delivered);
    }
  }

  // ----- Runs of rounds -----

  function Rounds(n: Net, script: nat -> Oracle, k: nat): Net {
    if k == 0 then n else Round(Rounds(n, script, k - 1), script(k - 1)).net
  }

  function RoundNumber(n: Net, script: nat -> Oracle, k: nat): Outcome {
    Round(Rounds(n, script, k), script(k))
  }

  // ----- The simulation object -----

  /** Two separate queues and one shared mask. */
  ghost predicate Apart(a: Link, b: Link)
    reads a, b, a.nodes, b.nodes
  {
    && a != b && a.Valid() && b.Valid() && a.lossMask == b.lossMask
    && (forall i, j :: 0 <= i < |a.nodes| && 0 <= j < |b.nodes| ==> a.nodes[i] != b.nodes[j])
  }

  /** The tail of the queue is gone, the same as before, or new: what a later submit
      may write to is known to whoever knows the tail now. */
  twostate predicate TailKnown(link: Link)
    reads link
  {
    link.lastPacket == null || link.lastPacket == old(link.lastPacket) || fresh(link.lastPacket)
  }

  method SubmitOn(link: Link, ghost other: Link, bytes: seq<Byte>, now: nat)
    requires Apart(link, other)
    modifies link, link.lastPacket, link.lossMask
    ensures Apart(link, other)
    ensures TailKnown(link) && link.lossMask == old(link.lossMask)
    ensures link.Value() == Submitted(old(link.Value()), bytes, now, old(TakesLoss(link.MaskValue())))
    ensures link.MaskValue()
         == if Admits(old(link.Value()), now) then Rotated(old(link.MaskValue())) else old(link.MaskValue())
  {
    link.SubmitNew(bytes, now);
    assert other.Valid();
  }

  method DequeueFrom(link: Link, ghost other: Link, now: nat) returns (packet: Packet?)
    requires Apart(link, other)
    modifies link
    ensures Apart(link, other) && TailKnown(link)
    ensures link.lossMask == old(link.lossMask) && link.MaskValue() == old(link.MaskValue())
    ensures packet != null <==> HasArrived(old(link.Value()), now)
    ensures packet != null ==> packet.Value() == old(link.Value()).queue[0]
    ensures link.Value() == Dequeued(old(link.Value()), now)
  {
    packet := link.Dequeue(now);
    assert other.Valid();
  }

  /** Asks the sources in turn for a packet. */
  method Prompt(o: Oracle) returns (bytes: seq<Byte>, target: Side, delay: nat, failed: bool)
    ensures Choose(o) == if bytes != [] then Send(target, bytes, delay) else Idle(failed)
    ensures bytes == [] ==> delay == 0
  {
    bytes, target, delay, failed := [], ServerToClient, 0, false;
    if o.stateless.Some? && |o.stateless.value| > 0 {
      bytes, delay := o.stateless.value, STATELESS_DELAY;
    }
    if bytes == [] {
      if o.clientUp {
        match o.clientPrepare
        case PrepareFailed => failed := true;
        case Prepared(p) => bytes := p;
      }
      if !failed {
        if bytes != [] {
          target := ClientToServer;
        } else if o.serverUp {
          match o.serverPrepare
          case PrepareFailed => failed := true;
          case Prepared(p) => bytes := p;
        }
      }
    }
  }

  method NextWake(o: Oracle, bumped: nat) returns (next: nat)
    ensures WakesFirst(o, bumped, next)
  {
    next := bumped;
    if o.clientUpLater {
      if o.serverUpLater && o.serverWake < o.clientWake {
        next := o.serverWake;
      } else {
        next := o.clientWake;
      }
    } else if o.serverUpLater {
      next := o.serverWake;
    }
    if next < bumped + IDLE_STEP {
      next := bumped + IDLE_STEP;
    }
  }

  /** The two links between the client and the server. The simulated time is a
      variable of the caller, passed in and out. */
  class Simulation {
    const cToS: Link
    const sToC: Link

    ghost predicate Valid()
      reads this, cToS, sToC, cToS.nodes, sToC.nodes
    {
      Apart(cToS, sToC)
    }

    ghost function Value(): Pair
      reads this, cToS, sToC, cToS.lossMask
    {
      Pair(cToS.Value(), sToC.Value(), cToS.MaskValue())
    }

    constructor (cToS: Link, sToC: Link)
      requires Apart(cToS, sToC)
      ensures Valid() && this.cToS == cToS && this.sToC == sToC
    {
      this.cToS, this.sToC := cToS, sToC;
    }

    method Submit(side: Side, bytes: seq<Byte>, now: nat)
      requires Valid()
      modifies cToS, sToC, cToS.lastPacket, sToC.lastPacket, cToS.lossMask
      ensures Valid() && TailKnown(cToS) && TailKnown(sToC) && cToS.lossMask == old(cToS.lossMask)
      ensures Value() == PairStep(old(Value()), PairOffer(side, bytes, now))
    {
      match side
      case ClientToServer => SubmitOn(cToS, sToC, bytes, now);
      case ServerToClient => SubmitOn(sToC, cToS, bytes, now);
    }

    method Dequeue(side: Side, now: nat) returns (packet: Packet?)
      requires Valid()
      modifies cToS, sToC
      ensures Valid() && TailKnown(cToS) && TailKnown(sToC) && cToS.lossMask == old(cToS.lossMask)
      ensures packet != null <==> HasArrived(old(Value()).Get(side), now)
      ensures packet != null ==> packet.Value() == old(Value()).Get(side).queue[0]
      ensures Value() == PairStep(old(Value()), PairTake(side, now))
    {
      match side
      case ClientToServer => packet := DequeueFrom(cToS, sToC, now);
      case ServerToClient => packet := DequeueFrom(sToC, cToS, now);
    }

    /** Delivers the packet that arrives before the given time, if there is one. */
    method Poll(next: nat) returns (time: nat, delivered: Option<Delivery>)
      requires Valid()
      modifies cToS, sToC
      ensures Valid() && TailKnown(cToS) && TailKnown(sToC) && cToS.lossMask == old(cToS.lossMask)
      ensures Polled(old(Value()), next) == (Net(Value(), time), delivered)
    {
      hide PairStep, HasArrived;
      time, delivered := next, None;
      var toClient := sToC.NextArrivalTime(next);
      var toServer := cToS.NextArrivalTime(next);
      var packet: Packet? := null;
      if toClient < toServer && toClient < next {
        packet := Dequeue(ServerToClient, toClient);
      }
      if packet != null {
        time := toClient;
        delivered := Some(Delivery(ServerToClient, packet.Value(), time));
      } else {
        if toServer < next {
          packet := Dequeue(ClientToServer, toServer);
        }
        if packet != null {
          time := toServer;
          delivered := Some(Delivery(ClientToServer, packet.Value(), time));
        }
      }
    }

    /** Nobody sends: time passes up to the next wake time or the next arrival. */
    method Wait(simulatedTime: nat, o: Oracle, failed: bool)
      returns (time: nat, ok: bool, active: bool, delivered: Option<Delivery>)
      requires Valid()
      modifies cToS, sToC
      ensures Valid() && TailKnown(cToS) && TailKnown(sToC) && cToS.lossMask == old(cToS.lossMask)
      ensures Outcome(Net(Value(), time), ok, active, None, delivered)
           == IdleRound(Net(old(Value()), simulatedTime), o, failed)
    {
      time := simulatedTime + IDLE_STEP;
      hide Polled, WakeTime, WakesFirst, IdleRound, PairStep, Apart;
      var next := NextWake(o, time);
      OneWakesFirst(o, time, next, WakeTime(o, time));
      ghost var before := Value();
      time, delivered := Poll(next);
      ok, active := !failed, false;
      if delivered.Some? {
        ok, active := o.accepts, true;
      }
      IdleRoundPolls(Net(before, simulatedTime), o, failed, Net(Value(), time), delivered);
    }

    method OneSimRound(simulatedTime: nat, o: Oracle)
      returns (time: nat, ok: bool, active: bool, sent: Option<PairEvent>, delivered: Option<Delivery>)
      requires Valid()
      modifies cToS, sToC, cToS.lastPacket, sToC.lastPacket, cToS.lossMask
      ensures Valid() && TailKnown(cToS) && TailKnown(sToC) && cToS.lossMask == old(cToS.lossMask)
      ensures Outcome(Net(Value(), time), ok, active, sent, delivered) == Round(Net(old(Value()), simulatedTime), o)
      ensures Ordered(old(Value()).cToS) && Ordered(old(Value()).sToC) ==>
                RoundObeys(Net(old(Value()), simulatedTime), o,
                           Outcome(Net(Value(), time), ok, active, sent, delivered))
    {
      hide Round, IdleRound, Choose, PairStep, RoundObeys, Ordered;
      if Ordered(Value().cToS) && Ordered(Value().sToC) {
        RoundMeets(Net(Value(), simulatedTime), o);
      }
      var bytes, target, delay, failed := Prompt(o);
      time, ok, active, sent, delivered := simulatedTime + delay, true, false, None, None;
      if bytes != [] {
        sent := Some(PairOffer(target, bytes, time));
        RoundSends(Net(Value(), simulatedTime), o, target, bytes, delay);
        Submit(target, bytes, time);
        active := true;
      } else {
        RoundIdles(Net(Value(), simulatedTime), o, failed);
        time, ok, active, delivered := Wait(time, o, failed);
      }
    }
  }
}
