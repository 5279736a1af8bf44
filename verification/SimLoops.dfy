/** The loops that repeat a round of the simulation, and how far they get. */
module SimLoops {
  import opened Words
  import opened SimLink
  import opened LinkRuns
  import opened SimRound

  /** Rounds numbered lo up to hi were all inactive. */
  ghost predicate Quiet(n: Net, script: nat -> Oracle, lo: nat, hi: nat) {
    forall k: nat :: lo <= k < hi ==> !RoundNumber(n, script, k).active
  }

  /** An active round submits one packet or delivers one; any other moves time at
      least two steps past its start. A delivery overwrites an earlier failure. */
  lemma RoundProgress(n: Net, o: Oracle)
    ensures var r := Round(n, o);
            && (r.active <==> r.sent.Some? || r.delivered.Some?)
            && !(r.sent.Some? && r.delivered.Some?)
            && (!r.active ==> r.net.time >= n.time + 2 * IDLE_STEP && r.net.pair == n.pair)
  {
  }

  /** The status of a round: if it sends, good. If it does not, what the receiver says of
      the packet delivered, when something queued arrives before the wake time; otherwise
      whether the endpoints asked went without failure. So a failed prepare, of either
      endpoint, goes unreported exactly if something arrives and is accepted. */
  lemma RoundStatus(n: Net, o: Oracle)
    requires Ordered(n.pair.cToS) && Ordered(n.pair.sToC)
    ensures var wake := WakeTime(o, n.time + IDLE_STEP);
            var arrives := ArrivesBefore(n.pair.cToS, wake) || ArrivesBefore(n.pair.sToC, wake);
            && (Round(n, o).ok <==> Round(n, o).sent.Some? || if arrives then o.accepts else !Failing(o))
            && (Failing(o) ==> (Round(n, o).ok <==> arrives && o.accepts))
  {
    hide PairStep, ArrivesBefore, NextArrival, Ordered, WakeTime;
    var wake := WakeTime(o, n.time + IDLE_STEP);
    EarlyArrivalAtHead(n.pair.cToS, wake, wake);
    EarlyArrivalAtHead(n.pair.sToC, wake, wake);
  }

  /** A quiet round ends 10000 microseconds after its start or, if every endpoint still up
      wants to wake later, at the first such wake time; nothing queued arrives before. */
  lemma QuietRoundEnds(n: Net, o: Oracle)
    requires Ordered(n.pair.cToS) && Ordered(n.pair.sToC) && !Round(n, o).active
    ensures var t := Round(n, o).net.time;
            && t >= n.time + 10_000 && WakesFirst(o, n.time + 5_000, t)
            && forall p :: p in n.pair.cToS.queue || p in n.pair.sToC.queue ==> t <= p.arrival
  {
    hide PairStep;
    var next := WakeTime(o, n.time + IDLE_STEP);
    NextArrivalIsEarliest(n.pair.cToS, next);
    NextArrivalIsEarliest(n.pair.sToC, next);
  }

  /** Quiet rounds move time at least two steps each. */
  lemma {:induction false} QuietTimePasses(n: Net, script: nat -> Oracle, lo: nat, hi: nat)
    requires lo <= hi && Quiet(n, script, lo, hi)
    ensures Rounds(n, script, hi).time >= Rounds(n, script, lo).time + (hi - lo) * (2 * IDLE_STEP)
    ensures Rounds(n, script, hi).pair == Rounds(n, script, lo).pair
    decreases hi - lo
  {
    hide Round;
    if lo < hi {
      QuietTimePasses(n, script, lo, hi - 1);
      RoundProgress(Rounds(n, script, hi - 1), script(hi - 1));
      assert !RoundNumber(n, script, hi - 1).active;
    }
  }

  /** What a loop has done after some trials: it ran exactly that many rounds, all but
      perhaps the last of them fine, and never past a point where it should have stopped. */
  ghost predicate Ran(start: Net, script: nat -> Oracle, stop: nat -> bool, end: Net, ok: bool, trials: nat) {
    && end == Rounds(start, script, trials)
    && (forall k: nat :: k < trials ==> !stop(k))
    && (forall k: nat :: k + 1 < trials ==> RoundNumber(start, script, k).ok)
    && (ok <==> trials == 0 || RoundNumber(start, script, trials - 1).ok)
  }

  /** Exactly the last `inactive` of the first k rounds were quiet. */
  ghost predicate Trailing(start: Net, script: nat -> Oracle, k: nat, inactive: nat) {
    && inactive <= k
    && Quiet(start, script, k - inactive, k)
    && (inactive < k ==> RoundNumber(start, script, k - inactive - 1).active)
  }

  /** The last rounds up to round k were quiet, as many as the limit. */
  ghost predicate IdleAt(start: Net, script: nat -> Oracle, k: nat, limit: nat) {
    limit <= k && Quiet(start, script, k - limit, k)
  }

  /** At no point before were there that many quiet rounds in a row. */
  ghost predicate NeverIdle(start: Net, script: nat -> Oracle, trials: nat, limit: nat) {
    forall k: nat :: k < trials ==> !IdleAt(start, script, k, limit)
  }

  lemma RanOnceMore(start: Net, script: nat -> Oracle, stop: nat -> bool, end: Net, trials: nat, inactive: nat)
    requires Ran(start, script, stop, end, true, trials) && !stop(trials) && Trailing(start, script, trials, inactive)
    ensures var r := Round(end, script(trials));
            && Ran(start, script, stop, r.net, r.ok, trials + 1)
            && Trailing(start, script, trials + 1, if r.active then 0 else inactive + 1)
  {
    hide Round;
  }

  lemma NotIdleYet(start: Net, script: nat -> Oracle, trials: nat, inactive: nat, limit: nat)
    requires Trailing(start, script, trials, inactive) && inactive < limit && NeverIdle(start, script, trials, limit)
    ensures NeverIdle(start, script, trials + 1, limit)
  {
    hide Round;
    if inactive < trials {
      assert RoundNumber(start, script, trials - inactive - 1).active;
    }
  }

  /** At least 10000 microseconds for each of the last inactive rounds, and the links
      are as the last activity left them. */
  lemma IdleTime(start: Net, script: nat -> Oracle, k: nat, inactive: nat)
    requires Trailing(start, script, k, inactive)
    ensures var last, end := Rounds(start, script, k - inactive), Rounds(start, script, k);
            end.time >= last.time + inactive * 10_000 && end.pair == last.pair
  {
    hide Round;
    QuietTimePasses(start, script, k - inactive, k);
  }

  /** The pair with both links pointed at the mask and given the queue limit, if any. */
  function Configured(p: Pair, mask: Option<Mask>, limit: Option<nat>): Pair {
    if limit.None? then p.(mask := mask)
    else Pair(p.cToS.(queueDelayMax := limit.value), p.sToC.(queueDelayMax := limit.value), mask)
  }

  ghost function MaskOf(lossMask: LossMask?): Option<Mask>
    reads lossMask
  {
    if lossMask == null then None else Some(lossMask.bits)
  }

  method ConfigureLink(link: Link, lossMask: LossMask?, limit: Option<nat>)
    requires link.Valid()
    modifies link`lossMask, link`queueDelayMax
    ensures link.Valid() && link.lossMask == lossMask
    ensures var max := if limit.None? then old(link.queueDelayMax) else limit.value;
            link.Value() == old(link.Value()).(queueDelayMax := max)
  {
    link.lossMask := lossMask;
    if limit.Some? {
      link.queueDelayMax := limit.value;
    }
  }

  method Configure(sim: Simulation, lossMask: LossMask?, limit: Option<nat>)
    requires sim.Valid()
    modifies sim.cToS`lossMask, sim.cToS`queueDelayMax, sim.sToC`lossMask, sim.sToC`queueDelayMax
    ensures sim.Valid() && sim.cToS.lossMask == lossMask
    ensures sim.Value() == Configured(old(sim.Value()), old(MaskOf(lossMask)), limit)
    ensures limit.Some? ==> sim.cToS.queueDelayMax == sim.sToC.queueDelayMax == limit.value
    ensures limit.None? ==> unchanged(sim.cToS`queueDelayMax, sim.sToC`queueDelayMax)
  {
    ConfigureLink(sim.cToS, lossMask, limit);
    ConfigureLink(sim.sToC, lossMask, limit);
  }

  lemma RanNothing(start: Net, script: nat -> Oracle, stop: nat -> bool, limit: nat)
    ensures Ran(start, script, stop, start, true, 0)
    ensures Trailing(start, script, 0, 0) && NeverIdle(start, script, 0, limit)
  {
  }

  /** One more round of a loop. */
  method NextRound(sim: Simulation, time0: nat, script: nat -> Oracle, trials: nat,
                   ghost start: Net, ghost stop: nat -> bool, ghost inactive: nat)
    returns (time: nat, ok: bool, wasActive: bool)
    requires sim.Valid() && !stop(trials)
    requires Ran(start, script, stop, Net(sim.Value(), time0), true, trials)
    requires Trailing(start, script, trials, inactive)
    modifies sim.cToS, sim.sToC, sim.cToS.lastPacket, sim.sToC.lastPacket, sim.cToS.lossMask
    ensures sim.Valid() && TailKnown(sim.cToS) && TailKnown(sim.sToC) && sim.cToS.lossMask == old(sim.cToS.lossMask)
    ensures Ran(start, script, stop, Net(sim.Value(), time), ok, trials + 1)
    ensures Trailing(start, script, trials + 1, if wasActive then 0 else inactive + 1)
  {
    hide Round, Ran, Trailing, Apart, RoundObeys, Ordered;
    RanOnceMore(start, script, stop, Net(sim.Value(), time0), trials, inactive);
    var sent, delivered;
    time, ok, wasActive, sent, delivered := sim.OneSimRound(time0, script(trials));
  }

  /** Runs rounds until the handshake completes, a round fails, 1024 rounds have run, or
      512 in a row were inactive, which takes at least 5120000 microseconds; and stops
      no later and no sooner. */
  method ConnectionLoop(sim: Simulation, lossMask: LossMask?, queueDelayMax: nat, simulatedTime: nat,
                        script: nat -> Oracle, ready: nat -> bool)
    returns (time: nat, ok: bool, trials: nat, inactive: nat)
    requires sim.Valid()
    modifies sim.cToS, sim.sToC, sim.cToS.lastPacket, sim.sToC.lastPacket, lossMask
    ensures sim.Valid() && TailKnown(sim.cToS) && TailKnown(sim.sToC) && sim.cToS.lossMask == lossMask
    ensures var start := Net(Configured(old(sim.Value()), old(MaskOf(lossMask)), Some(queueDelayMax)), simulatedTime);
            && Ran(start, script, ready, Net(sim.Value(), time), ok, trials)
            && Trailing(start, script, trials, inactive) && NeverIdle(start, script, trials, 512)
            && (inactive == 512 ==> time >= Rounds(start, script, trials - 512).time + 5_120_000)
    ensures trials <= 1024 && inactive <= 512
    ensures !ok || trials == 1024 || inactive == 512 || ready(trials)
  {
    hide Round, Ran, Trailing, NeverIdle, Configured, Rounds, Apart;
    ghost var start := Net(Configured(sim.Value(), MaskOf(lossMask), Some(queueDelayMax)), simulatedTime);
    Configure(sim, lossMask, Some(queueDelayMax));
    time, ok, trials, inactive := simulatedTime, true, 0, 0;
    RanNothing(start, script, ready, 512);
    while ok && trials < 1024 && inactive < 512 && !ready(trials)
      invariant sim.Valid() && TailKnown(sim.cToS) && TailKnown(sim.sToC) && sim.cToS.lossMask == lossMask
      invariant Ran(start, script, ready, Net(sim.Value(), time), ok, trials)
      invariant Trailing(start, script, trials, inactive) && NeverIdle(start, script, trials, 512)
      invariant trials <= 1024 && inactive <= 512
      decreases 1024 - trials
    {
      NotIdleYet(start, script, trials, inactive, 512);
      var wasActive;
      time, ok, wasActive := NextRound(sim, time, script, trials, start, ready, inactive);
      trials := trials + 1;
      if wasActive {
        inactive := 0;
      } else {
        inactive := inactive + 1;
      }
    }
    LoopEnds(start, script, ready, Net(sim.Value(), time), ok, trials, inactive);
  }

  lemma LoopEnds(start: Net, script: nat -> Oracle, stop: nat -> bool, end: Net, ok: bool, trials: nat, inactive: nat)
    requires Ran(start, script, stop, end, ok, trials) && Trailing(start, script, trials, inactive)
    ensures end == Rounds(start, script, trials) && inactive <= trials
    ensures end.time >= Rounds(start, script, trials - inactive).time + inactive * 10_000
  {
    hide Round;
    IdleTime(start, script, trials, inactive);
  }

  /** Runs rounds while both endpoints are ready (`down` says when one is not), until
      everything is sent and acknowledged, a round fails, the trials are used up, or
      256 in a row were inactive, which takes at least 2560000 microseconds. A round that
      fails ends the loop before it is counted as active or inactive. */
  method DataSendingLoop(sim: Simulation, lossMask: LossMask?, simulatedTime: nat, maxTrials: int,
                         script: nat -> Oracle, down: nat -> bool, complete: nat -> bool)
    returns (time: nat, ok: bool, trials: nat, inactive: nat)
    requires sim.Valid()
    modifies sim.cToS, sim.sToC, sim.cToS.lastPacket, sim.sToC.lastPacket, lossMask
    ensures sim.Valid() && TailKnown(sim.cToS) && TailKnown(sim.sToC) && sim.cToS.lossMask == lossMask
    ensures var start := Net(Configured(old(sim.Value()), old(MaskOf(lossMask)), None), simulatedTime);
            && Ran(start, script, down, Net(sim.Value(), time), ok, trials)
            && (!ok ==> trials > 0) && Trailing(start, script, if ok then trials else trials - 1, inactive)
            && NeverIdle(start, script, trials, 256)
            && (inactive == 256 ==> time >= Rounds(start, script, trials - 256).time + 2_560_000)
    ensures trials <= (if maxTrials <= 0 then 100000 else maxTrials) && inactive <= 256
    ensures forall k: nat :: 0 < k < trials ==> !complete(k)
    ensures !ok || trials == (if maxTrials <= 0 then 100000 else maxTrials) || inactive == 256
         || down(trials) || (trials > 0 && complete(trials))
  {
    hide Round, Ran, Trailing, NeverIdle, Configured, Rounds, Apart;
    ghost var start := Net(Configured(sim.Value(), MaskOf(lossMask), None), simulatedTime);
    Configure(sim, lossMask, None);
    var limit := if maxTrials <= 0 then 100000 else maxTrials;
    time, ok, trials, inactive := simulatedTime, true, 0, 0;
    RanNothing(start, script, down, 256);
    while trials < limit && inactive < 256 && !down(trials)
      invariant sim.Valid() && TailKnown(sim.cToS) && TailKnown(sim.sToC) && sim.cToS.lossMask == lossMask
      invariant ok && Ran(start, script, down, Net(sim.Value(), time), ok, trials)
      invariant Trailing(start, script, trials, inactive) && NeverIdle(start, script, trials, 256)
      invariant trials <= limit && inactive <= 256
      invariant forall k: nat :: 0 < k <= trials ==> !complete(k)
      decreases limit - trials
    {
      NotIdleYet(start, script, trials, inactive, 256);
      var wasActive;
      time, ok, wasActive := NextRound(sim, time, script, trials, start, down, inactive);
      trials := trials + 1;
      if !ok {
        return;
      }
      if wasActive {
        inactive := 0;
      } else {
        inactive := inactive + 1;
      }
      if complete(trials) {
        break;
      }
    }
    LoopEnds(start, script, down, Net(sim.Value(), time), ok, trials, inactive);
  }

  /** The handshake and then the transfer, on the same two links, with the mask set anew in
      between: the second loop goes on from the queues and the time the first one left. */
  method ScenarioLoops(sim: Simulation, lossMask: LossMask, initLossMask: Mask, queueDelayMax: nat, simulatedTime: nat,
                       handshake: nat -> Oracle, ready: nat -> bool,
                       transfer: nat -> Oracle, down: nat -> bool, complete: nat -> bool)
    returns (time: nat, ok: bool, connected: bool, handshakeTrials: nat, transferTrials: nat)
    requires sim.Valid()
    modifies sim.cToS, sim.sToC, sim.cToS.lastPacket, sim.sToC.lastPacket, lossMask
    ensures sim.Valid() && TailKnown(sim.cToS) && TailKnown(sim.sToC) && sim.cToS.lossMask == lossMask
    ensures var configured := Configured(old(sim.Value()), Some(old(lossMask.bits)), Some(queueDelayMax));
            var start := Net(configured, simulatedTime);
            var middle := Rounds(start, handshake, handshakeTrials);
            var restart := Net(middle.pair.(mask := Some(initLossMask)), middle.time);
            && Ran(start, handshake, ready, middle, connected, handshakeTrials)
            && if connected then Ran(restart, transfer, down, Net(sim.Value(), time), ok, transferTrials)
               else !ok && Net(sim.Value(), time) == middle
  {
    hide Round, Ran, Trailing, NeverIdle, Rounds, Apart;
    ghost var start := Net(Configured(sim.Value(), Some(lossMask.bits), Some(queueDelayMax)), simulatedTime);
    transferTrials := 0;
    var inactive;
    time, ok, handshakeTrials, inactive :=
      ConnectionLoop(sim, lossMask, queueDelayMax, simulatedTime, handshake, ready);
    connected := ok;
    ghost var middle := Net(sim.Value(), time);
    LoopEnds(start, handshake, ready, middle, ok, handshakeTrials, inactive);
    if ok {
      lossMask.bits := initLossMask;
      assert sim.Value() == middle.pair.(mask := Some(initLossMask));
      time, ok, transferTrials, inactive := DataSendingLoop(sim, lossMask, time, 0, transfer, down, complete);
    }
  }
}
